/**
 The conversion against the tensors a file was made from: elements of their own types, printed into
 the data section of a GGUF file, and the tensors of the STF file that comes out.
 */
module GgufTensors {
  import opened Bytes
  import opened Stf
  import opened StfRoundTrip
  import opened Gguf
  import opened GgufRoundTrip
  import Utf8

  /** 32 weights of one byte with a common half-precision scale. */
  datatype Block = Block(scale: u16, weights: seq<byte>)

  /** The elements of a tensor; floating-point numbers are given by their bit patterns. */
  datatype Elems =
    | F32(singles: seq<u32>)
    | F16(halves: seq<u16>)
    | I8(bytes: seq<byte>)
    | Q8(blocks: seq<Block>)
    | Other(gtype: u32, raw: seq<byte>)  // types the converter skips

  datatype Source = Source(name: seq<byte>, shape: seq<nat>, elems: Elems)

  // ---- Printing elements ----------------------------------------------------

  function Singles(xs: seq<u32>): (s: seq<byte>)
    ensures |s| == 4 * |xs|
  {
    if xs == [] then [] else Singles(xs[..|xs| - 1]) + ToLE(xs[|xs| - 1], 4)
  }

  function Halves(xs: seq<u16>): (s: seq<byte>)
    ensures |s| == 2 * |xs|
  {
    if xs == [] then [] else Halves(xs[..|xs| - 1]) + ToLE(xs[|xs| - 1], 2)
  }

  predicate Whole(blocks: seq<Block>) { forall i | 0 <= i < |blocks| :: |blocks[i].weights| == 32 }

  function Blocks(bs: seq<Block>): (s: seq<byte>)
    ensures Whole(bs) ==> |s| == 34 * |bs|
  {
    if bs == [] then []
    else
      var b := bs[|bs| - 1];
      Blocks(bs[..|bs| - 1]) + ToLE(b.scale, 2) + b.weights
  }

  function Printed(e: Elems): seq<byte>
  {
    match e
    case F32(xs) => Singles(xs)
    case F16(xs) => Halves(xs)
    case I8(bytes) => bytes
    case Q8(blocks) => Blocks(blocks)
    case Other(_, raw) => raw
  }

  /** The number of elements of a shape, from its first dimension on. */
  function Size(shape: seq<nat>): nat
  {
    if shape == [] then 1 else Scaled(shape[0], Size(shape[1..]))
  }

  function Scaled(x: nat, y: nat): nat { x * y }

  /** As many elements as the shape says; the last block of 32 may be in part unused. */
  predicate Fills(s: Source)
  {
    match s.elems
    case F32(xs) => |xs| == Size(s.shape)
    case F16(xs) => |xs| == Size(s.shape)
    case I8(bytes) => |bytes| == Size(s.shape)
    case Q8(blocks) => Whole(blocks) && Size(s.shape) <= 32 * |blocks| < Size(s.shape) + 32
    case Other(gtype, _) => gtype != 0 && gtype != 1 && gtype != 8 && gtype != 32
  }

  /** Type numbers in the two formats; the converter has no number for other types. */
  function GgufType(e: Elems): u32
  {
    match e case F32(_) => 0 case F16(_) => 1 case I8(_) => 32 case Q8(_) => 8 case Other(gtype, _) => gtype
  }

  function StfType(e: Elems): Option<nat>
  {
    match e case F32(_) => Some(2) case F16(_) => Some(1) case I8(_) => Some(0) case Q8(_) => Some(3) case Other(_, _) => None
  }

  // ---- Printing a file ------------------------------------------------------

  /** The data section: each tensor starts at the next multiple of 32. */
  function Section(ss: seq<Source>): seq<byte>
  {
    if ss == [] then []
    else
      var pre := Section(ss[..|ss| - 1]);
      pre + Zeros(Align32(|pre|) - |pre|) + Printed(ss[|ss| - 1].elems)
  }

  function InfoOf(s: Source, offset: nat): Info { Info(s.name, s.shape, GgufType(s.elems), offset) }

  function InfosOf(ss: seq<Source>): (infos: seq<Info>)
    ensures |infos| == |ss|
  {
    if ss == [] then []
    else
      var pre := ss[..|ss| - 1];
      InfosOf(pre) + [InfoOf(ss[|ss| - 1], Align32(|Section(pre)|))]
  }

  function FileFor(version: nat, kvs: seq<Pair>, ss: seq<Source>): File
  {
    File(version, kvs, InfosOf(ss), Section(ss))
  }

  /** The data section of a printed file starts at the first multiple of 32 behind the descriptions. */
  lemma SectionStart(f: File)
    ensures var base := |PackFile(f)| - |f.data|;
            base % 32 == 0 && |PackHead(f)| <= base < |PackHead(f)| + 32 && PackFile(f)[base..] == f.data
  {
    hide PackHead;
  }

  // ---- What the conversion takes --------------------------------------------

  predicate Chosen(s: Source, filter: set<seq<byte>>)
  {
    StfType(s.elems).Some? && (filter == {} || Utf8.Repair(s.name) in filter)
  }

  /** The tensor a source becomes: decoded name, its type, its shape, and all of its bytes. */
  function Converted(s: Source): Tensor
    requires StfType(s.elems).Some?
  {
    Tensor(Utf8.Repair(s.name), StfType(s.elems).value, s.shape, Printed(s.elems))
  }

  function Expected(ss: seq<Source>, filter: set<seq<byte>>): seq<Tensor>
  {
    if ss == [] then []
    else
      var pre, s := ss[..|ss| - 1], ss[|ss| - 1];
      Expected(pre, filter) + (if Chosen(s, filter) then [Converted(s)] else [])
  }

  predicate AllFill(ss: seq<Source>) { forall i | 0 <= i < |ss| :: Fills(ss[i]) }

  lemma {:induction false} ElementsFront(x: nat, t: seq<nat>)
    ensures Elements([x] + t) == Scaled(x, Elements(t))
  {
    hide Scaled;
    if t == [] {
      assert ([x] + t)[..0] == [];
      ScaledOne(x);
    } else {
      var n := |t| - 1;
      assert ([x] + t)[..|t|] == [x] + t[..n];
      ElementsFront(x, t[..n]);
      ScaledTwice(x, Elements(t[..n]), t[n]);
    }
  }

  lemma ScaledOne(x: nat)
    ensures Scaled(x, 1) == x && 1 * x == x
  {
  }

  lemma ScaledTwice(x: nat, y: nat, z: nat)
    ensures Scaled(x, y * z) == Scaled(x, y) * z
  {
  }

  /** The converter's running product is the number of elements. */
  lemma {:induction false} ElementsIsSize(shape: seq<nat>)
    ensures Elements(shape) == Size(shape)
  {
    if shape != [] {
      ElementsIsSize(shape[1..]);
      ElementsFront(shape[0], shape[1..]);
      assert shape == [shape[0]] + shape[1..];
    }
  }

  /** For every supported type the converter's byte count is the number of printed bytes, and the type numbers agree. */
  lemma TypeAndCount(s: Source, name: seq<byte>, offset: nat)
    requires Fills(s)
    ensures StfDtype(GgufType(s.elems)) == StfType(s.elems)
    ensures StfType(s.elems).Some? ==> ByteCount(Info(name, s.shape, GgufType(s.elems), offset)) == |Printed(s.elems)|
  {
    ElementsIsSize(s.shape);
    hide Elements, Size;
    if s.elems.Q8? {
      BlockCount(Size(s.shape), |s.elems.blocks|);
    }
  }

  lemma BlockCount(n: nat, b: nat)
    requires n <= 32 * b < n + 32
    ensures (n + 31) / 32 == b
  {
  }

  lemma {:induction false} DecodedLast(infos: seq<Info>, t: Info)
    ensures Decoded(infos + [t]) == Decoded(infos) + [DecodedInfo(t)]
  {
    hide DecodedInfo;
    if infos == [] {
      assert infos + [t] == [t];
      assert [t][1..] == [];
    } else {
      DecodedLast(infos[1..], t);
      assert (infos + [t])[1..] == infos[1..] + [t];
    }
  }

  /** One more tensor in the section keeps what stands before it. */
  lemma SectionGrows(ss: seq<Source>)
    requires ss != []
    ensures var pre := ss[..|ss| - 1];
            var off, data := Align32(|Section(pre)|), Printed(ss[|ss| - 1].elems);
            Section(pre) <= Section(ss) && |Section(ss)| == off + |data| && Section(ss)[off..off + |data|] == data
  {
    hide Printed, Align32;
    var pre := Section(ss[..|ss| - 1]);
    PaddedAppend(pre, Zeros(Align32(|pre|) - |pre|), Printed(ss[|ss| - 1].elems));
  }

  lemma PaddedAppend(a: seq<byte>, pad: seq<byte>, b: seq<byte>)
    ensures var n, s := |a| + |pad|, a + pad + b;
            a <= s && |s| == n + |b| && s[n..n + |b|] == b
  {
  }

  /** What the reader is to take of a printed file is exactly the chosen sources, converted. */
  lemma {:induction false} WantedIsExpected(ss: seq<Source>, section: seq<byte>, filter: set<seq<byte>>)
    requires AllFill(ss) && Section(ss) <= section
    ensures InBounds(Decoded(InfosOf(ss)), section, filter)
    ensures Wanted(Decoded(InfosOf(ss)), section, filter) == Expected(ss, filter)
  {
    if ss != [] {
      hide Fills, AllFill, Section, InfosOf, Expected, Align32, Decoded, InBounds, Wanted, Chosen, Converted, Selected, TakenPart, DecodedInfo;
      var pre, s := ss[..|ss| - 1], ss[|ss| - 1];
      SectionGrows(ss);
      LastSource(ss, section, filter);
      WantedIsExpected(pre, section, filter);
      var t := DecodedInfo(InfoOf(s, Align32(|Section(pre)|)));
      DecodedLast(InfosOf(pre), InfoOf(s, t.offset));
      TakenIsConverted(s, Align32(|Section(pre)|), Section(ss), section, filter);
      LastWanted(Decoded(InfosOf(pre)), t, section, filter);
    } else {
      NothingWanted(section, filter);
    }
  }

  lemma LastSource(ss: seq<Source>, section: seq<byte>, filter: set<seq<byte>>)
    requires ss != [] && AllFill(ss) && Section(ss[..|ss| - 1]) <= Section(ss) <= section
    ensures var pre, s := ss[..|ss| - 1], ss[|ss| - 1];
            && AllFill(pre) && Fills(s) && Section(pre) <= section
            && InfosOf(ss) == InfosOf(pre) + [InfoOf(s, Align32(|Section(pre)|))]
            && Expected(ss, filter) == Expected(pre, filter) + (if Chosen(s, filter) then [Converted(s)] else [])
  {
    hide Fills, Section, Align32, Chosen, Converted;
  }

  lemma NothingWanted(section: seq<byte>, filter: set<seq<byte>>)
    ensures Decoded(InfosOf([])) == [] && InBounds([], section, filter) && Wanted([], section, filter) == [] == Expected([], filter)
  {
  }

  /** What a description contributes to the selection. */
  function TakenPart(t: Info, section: seq<byte>, filter: set<seq<byte>>): seq<Tensor>
    requires Selected(t, filter) ==> t.offset + ByteCount(t) <= |section|
  {
    if Selected(t, filter) then [Tensor(t.name, StfDtype(t.gtype).value, t.shape, section[t.offset..t.offset + ByteCount(t)])] else []
  }

  lemma TakenIsConverted(s: Source, off: nat, part: seq<byte>, section: seq<byte>, filter: set<seq<byte>>)
    requires Fills(s) && part <= section
    requires var n := |Printed(s.elems)|; off + n == |part| && part[off..off + n] == Printed(s.elems)
    ensures var t := DecodedInfo(InfoOf(s, off));
            && (Selected(t, filter) ==> t.offset + ByteCount(t) <= |section|)
            && TakenPart(t, section, filter) == if Chosen(s, filter) then [Converted(s)] else []
  {
    hide Printed, Fills, ByteCount, Utf8.Repair, StfDtype, StfType, GgufType;
    TypeAndCount(s, Utf8.Repair(s.name), off);
    var n := |Printed(s.elems)|;
    assert section[off..off + n] == part[off..off + n];
  }

  lemma LastWanted(infos: seq<Info>, t: Info, section: seq<byte>, filter: set<seq<byte>>)
    requires InBounds(infos, section, filter) && (Selected(t, filter) ==> t.offset + ByteCount(t) <= |section|)
    ensures InBounds(infos + [t], section, filter)
    ensures Wanted(infos + [t], section, filter) == Wanted(infos, section, filter) + TakenPart(t, section, filter)
  {
    hide ByteCount, StfDtype, Selected, Wanted;
    WantedLast(infos + [t], section, filter);
    assert (infos + [t])[..|infos|] == infos;
  }

  lemma WantedLast(infos: seq<Info>, section: seq<byte>, filter: set<seq<byte>>)
    requires infos != [] && InBounds(infos, section, filter)
    ensures var pre, t := infos[..|infos| - 1], infos[|infos| - 1];
            && InBounds(pre, section, filter) && (Selected(t, filter) ==> t.offset + ByteCount(t) <= |section|)
            && Wanted(infos, section, filter) == Wanted(pre, section, filter) + TakenPart(t, section, filter)
  {
    hide ByteCount, StfDtype, Selected;
  }

  /** Where source k is among the converted tensors. */
  function Rank(ss: seq<Source>, filter: set<seq<byte>>, k: nat): nat
    requires k < |ss|
  {
    |Expected(ss[..k], filter)|
  }

  lemma {:induction false} ExpectedAt(ss: seq<Source>, filter: set<seq<byte>>, k: nat)
    requires k < |ss| && Chosen(ss[k], filter)
    ensures Rank(ss, filter, k) < |Expected(ss, filter)| && Expected(ss, filter)[Rank(ss, filter, k)] == Converted(ss[k])
  {
    hide Converted, Chosen;
    var pre := ss[..|ss| - 1];
    if k < |pre| {
      ExpectedAt(pre, filter, k);
      assert pre[..k] == ss[..k];
    }
  }

  /**
   From elements to elements: print any sources as a GGUF file, convert it, load the result and look
   a chosen source up by its decoded name: its type, its shape and the bytes of all its elements.
   */
  method ConvertPrinted(version: nat, kvs: seq<Pair>, ss: seq<Source>, filter: set<seq<byte>>, modelName: seq<byte>, k: nat)
      returns (found: Option<Tensor>)
    requires GoodFile(FileFor(version, kvs, ss)) && AllFill(ss) && k < |ss| && Chosen(ss[k], filter)
    requires var ts := Expected(ss, filter);
             && AllPackable(ts) && 1 <= |ts| <= MAX_TENSORS && SomeData(ts) && DistinctNames(ts)
             && (forall j | 0 <= j < |ts| :: GoodName(ts[j].name))
    ensures found == Some(Tensor(Utf8.Repair(ss[k].name), StfType(ss[k].elems).value, ss[k].shape, Printed(ss[k].elems)))
    ensures match ss[k].elems
            case F32(_) => found.value.dtype == 2
            case F16(_) => found.value.dtype == 1
            case I8(_) => found.value.dtype == 0
            case Q8(_) => found.value.dtype == 3
            case Other(_, _) => false
  {
    hide GoodFile, AllFill, Expected, AllPackable, SomeData, DistinctNames, Decoded, InfosOf, Section, Wanted, InBounds, Rank;
    WantedIsExpected(ss, Section(ss), filter);
    ExpectedAt(ss, filter, k);
    found := ConvertThenFind(FileFor(version, kvs, ss), filter, modelName, Rank(ss, filter, k));
  }

  /** Element j of a tensor of singles stands in bytes 4j to 4j + 3, and of halves in bytes 2j and 2j + 1. */
  lemma {:induction false} SingleAt(xs: seq<u32>, j: nat)
    requires j < |xs|
    ensures FromLE(Singles(xs)[4 * j..4 * j + 4]) == xs[j]
  {
    var n := |xs| - 1;
    if j < n {
      SingleAt(xs[..n], j);
      assert Singles(xs)[4 * j..4 * j + 4] == Singles(xs[..n])[4 * j..4 * j + 4];
    } else {
      assert Singles(xs)[4 * j..4 * j + 4] == ToLE(xs[n], 4);
      PackedField(xs[n]);
    }
  }

  lemma {:induction false} HalfAt(xs: seq<u16>, j: nat)
    requires j < |xs|
    ensures FromLE(Halves(xs)[2 * j..2 * j + 2]) == xs[j]
  {
    var n := |xs| - 1;
    if j < n {
      HalfAt(xs[..n], j);
      assert Halves(xs)[2 * j..2 * j + 2] == Halves(xs[..n])[2 * j..2 * j + 2];
    } else {
      assert Halves(xs)[2 * j..2 * j + 2] == ToLE(xs[n], 2);
      PackedField(xs[n]);
    }
  }

  /** Block j of a quantised tensor stands in the 34 bytes from 34j on, scale first. */
  lemma {:induction false} BlockAt(bs: seq<Block>, j: nat)
    requires j < |bs| && Whole(bs)
    ensures FromLE(Blocks(bs)[34 * j..34 * j + 2]) == bs[j].scale && Blocks(bs)[34 * j + 2..34 * j + 34] == bs[j].weights
  {
    var n := |bs| - 1;
    assert Whole(bs[..n]);
    if j < n {
      BlockAt(bs[..n], j);
      assert Blocks(bs)[34 * j..34 * j + 2] == Blocks(bs[..n])[34 * j..34 * j + 2];
      assert Blocks(bs)[34 * j + 2..34 * j + 34] == Blocks(bs[..n])[34 * j + 2..34 * j + 34];
    } else {
      assert Blocks(bs)[34 * j..34 * j + 2] == ToLE(bs[n].scale, 2);
      assert Blocks(bs)[34 * j + 2..34 * j + 34] == bs[n].weights;
      PackedField(bs[n].scale);
    }
  }
}
