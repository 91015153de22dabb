/** Reading what the GGUF printer produced, and the whole conversion from GGUF to STF. */
module GgufRoundTrip {
  import opened Bytes
  import opened Stf
  import opened StfRoundTrip
  import opened Gguf
  import Utf8

  /** The bytes s stand at position pos of the data. */
  predicate At(data: seq<byte>, pos: nat, s: seq<byte>)
  {
    pos + |s| <= |data| && data[pos..pos + |s|] == s
  }

  lemma AtSplit(data: seq<byte>, pos: nat, a: seq<byte>, b: seq<byte>)
    requires At(data, pos, a + b)
    ensures At(data, pos, a) && At(data, pos + |a|, b)
  {
    var s := data[pos..pos + |a + b|];
    SliceOfSlice(data, pos, pos + |a + b|, 0, |a|);
    SliceOfSlice(data, pos, pos + |a + b|, |a|, |a| + |b|);
    assert s[0..|a|] == a && s[|a|..|a| + |b|] == b;
  }

  lemma AtField(data: seq<byte>, pos: nat, v: nat)
    ensures v < TWO32 && At(data, pos, ToLE(v, 4)) ==> Get32(data, pos) == v
    ensures v < TWO64 && At(data, pos, ToLE(v, 8)) ==> Get64(data, pos) == v
  {
    PackedField(v);
  }

  lemma StringBack(data: seq<byte>, pos: nat, s: seq<byte>)
    requires |s| < TWO64 && At(data, pos, PackString(s))
    ensures ReadString(data, pos) == Some((Utf8.Repair(s), pos + |PackString(s)|))
  {
    hide ToLE, FromLE, Utf8.Repair;
    AtSplit(data, pos, ToLE(|s|, 8), s);
    AtField(data, pos, |s|);
  }

  // ---- Metadata -------------------------------------------------------------

  /** Skipping consumes exactly the bytes of a printed value, arrays within arrays included. */
  lemma {:induction false} SkipExact(data: seq<byte>, pos: nat, v: Value)
    requires WellFormed(v) && At(data, pos, PackValue(v))
    ensures SkipValue(data, pos, TypeCode(v)) == Some(pos + |PackValue(v)|)
    decreases v
  {
    hide At, ToLE, FromLE, PackItems;
    match v
    case Scalar(_, _) =>
    case Text(text) => TextBack(data, pos, text);
    case Array(elem, items) =>
      ArrayParts(data, pos, elem, items);
      SkipItemsExact(data, pos + 12, elem, items);
  }

  lemma TextBack(data: seq<byte>, pos: nat, text: seq<byte>)
    requires |text| < TWO64 && At(data, pos, PackValue(Text(text)))
    ensures SkipValue(data, pos, 8) == Some(pos + |PackValue(Text(text))|)
  {
    hide ToLE, FromLE;
    AtSplit(data, pos, ToLE(|text|, 8), text);
    AtField(data, pos, |text|);
  }

  lemma ArrayParts(data: seq<byte>, pos: nat, elem: nat, items: seq<Value>)
    requires elem <= 12 && |items| < TWO64 && At(data, pos, PackValue(Array(elem, items)))
    ensures pos + 12 <= |data| && Get32(data, pos) == elem && Get64(data, pos + 4) == |items|
    ensures At(data, pos + 12, PackItems(items)) && |PackValue(Array(elem, items))| == 12 + |PackItems(items)|
  {
    hide ToLE, FromLE, At, PackItems;
    var a, b, c := ToLE(elem, 4), ToLE(|items|, 8), PackItems(items);
    AtSplit(data, pos, a + b, c);
    AtSplit(data, pos, a, b);
    AtField(data, pos, elem);
    AtField(data, pos + 4, |items|);
    assert pos + 4 + 8 <= |data| by { AtFits(data, pos + 4, b); }
  }

  lemma AtFits(data: seq<byte>, pos: nat, s: seq<byte>)
    requires At(data, pos, s)
    ensures pos + |s| <= |data|
  {
  }

  lemma {:induction false} SkipItemsExact(data: seq<byte>, pos: nat, elem: nat, items: seq<Value>)
    requires forall i | 0 <= i < |items| :: TypeCode(items[i]) == elem && WellFormed(items[i])
    requires At(data, pos, PackItems(items))
    ensures SkipItems(data, pos, elem, |items|) == Some(pos + |PackItems(items)|)
    decreases items
  {
    if items != [] {
      hide At, PackValue, SkipValue, TypeCode, WellFormed;
      AtSplit(data, pos, PackValue(items[0]), PackItems(items[1..]));
      SkipExact(data, pos, items[0]);
      SkipItemsExact(data, pos + |PackValue(items[0])|, elem, items[1..]);
    }
  }

  /** The key, the type code and the value of a printed pair are where the reader looks for them. */
  lemma PairBack(data: seq<byte>, pos: nat, kv: Pair, rest: seq<byte>)
    requires GoodPair(kv) && At(data, pos, PackPair(kv) + rest)
    ensures var p := pos + |PackString(kv.key)|;
            && ReadString(data, pos) == Some((Utf8.Repair(kv.key), p))
            && p + 4 <= |data| && Get32(data, p) == TypeCode(kv.value)
            && SkipValue(data, p + 4, TypeCode(kv.value)) == Some(pos + |PackPair(kv)|)
            && At(data, pos + |PackPair(kv)|, rest)
  {
    hide ToLE, At, WellFormed, PackValue, PackString, PackPair, SkipValue, ReadString, TypeCode, Get32;
    var n := |PackString(kv.key)|;
    PairParts(kv, rest);
    FourParts(data, pos, PackString(kv.key), ToLE(TypeCode(kv.value), 4), PackValue(kv.value), rest);
    StringBack(data, pos, kv.key);
    CodeBack(data, pos + n, kv.value);
    SkipExact(data, pos + n + 4, kv.value);
  }

  lemma FourParts(data: seq<byte>, pos: nat, a: seq<byte>, b: seq<byte>, c: seq<byte>, d: seq<byte>)
    requires At(data, pos, a + (b + (c + d)))
    ensures At(data, pos, a) && At(data, pos + |a|, b) && At(data, pos + |a| + |b|, c) && At(data, pos + |a| + |b| + |c|, d)
  {
    hide At;
    AtSplit(data, pos, a, b + (c + d));
    AtSplit(data, pos + |a|, b, c + d);
    AtSplit(data, pos + |a| + |b|, c, d);
  }

  lemma PairParts(kv: Pair, rest: seq<byte>)
    requires WellFormed(kv.value)
    ensures var a, b, c := PackString(kv.key), ToLE(TypeCode(kv.value), 4), PackValue(kv.value);
            PackPair(kv) + rest == a + (b + (c + rest)) && |PackPair(kv)| == |a| + 4 + |c|
  {
    hide ToLE, WellFormed, PackValue, PackString, TypeCode;
  }

  lemma CodeBack(data: seq<byte>, pos: nat, v: Value)
    requires WellFormed(v) && At(data, pos, ToLE(TypeCode(v), 4))
    ensures pos + 4 <= |data| && Get32(data, pos) == TypeCode(v)
  {
    hide ToLE, FromLE, At, TypeCode, WellFormed;
    CodeFits(v);
    AtField(data, pos, TypeCode(v));
    AtFits(data, pos, ToLE(TypeCode(v), 4));
  }

  lemma PairsStep(data: seq<byte>, pos: nat, kv: Pair, n: nat)
    requires n > 0
    requires var p := pos + |PackString(kv.key)|;
             && ReadString(data, pos) == Some((Utf8.Repair(kv.key), p))
             && p + 4 <= |data| && Get32(data, p) == TypeCode(kv.value)
             && SkipValue(data, p + 4, TypeCode(kv.value)) == Some(pos + |PackPair(kv)|)
    ensures SkipPairs(data, pos, n) == SkipPairs(data, pos + |PackPair(kv)|, n - 1)
  {
    hide PackString, PackPair, ReadString, SkipValue, TypeCode, Get32;
  }

  predicate GoodPairs(kvs: seq<Pair>) { forall i | 0 <= i < |kvs| :: GoodPair(kvs[i]) }

  lemma GoodPairsParts(kvs: seq<Pair>)
    requires GoodPairs(kvs) && kvs != []
    ensures GoodPair(kvs[0]) && GoodPairs(kvs[1..])
  {
    hide GoodPair;
  }

  lemma {:induction false} PairsBack(data: seq<byte>, pos: nat, kvs: seq<Pair>)
    requires GoodPairs(kvs) && At(data, pos, PackPairs(kvs))
    ensures SkipPairs(data, pos, |kvs|) == Some(pos + |PackPairs(kvs)|)
    decreases kvs
  {
    hide At, GoodPair, GoodPairs, PackPair, SkipValue, ReadString, PackString, Get32, TypeCode;
    if kvs != [] {
      GoodPairsParts(kvs);
      PairBack(data, pos, kvs[0], PackPairs(kvs[1..]));
      PairsStep(data, pos, kvs[0], |kvs|);
      PairsBack(data, pos + |PackPair(kvs[0])|, kvs[1..]);
    }
  }

  lemma CodeFits(v: Value)
    requires WellFormed(v)
    ensures TypeCode(v) <= 12
  {
  }

  // ---- Tensor descriptions --------------------------------------------------

  lemma {:induction false} DimsBack(data: seq<byte>, pos: nat, shape: seq<nat>)
    requires (forall i | 0 <= i < |shape| :: shape[i] < TWO64) && At(data, pos, PackDims(shape))
    ensures ReadDims(data, pos, |shape|) == shape
    decreases shape
  {
    if shape != [] {
      hide ToLE, FromLE, At;
      AtFits(data, pos, PackDims(shape));
      AtSplit(data, pos, ToLE(shape[0], 8), PackDims(shape[1..]));
      AtField(data, pos, shape[0]);
      DimsBack(data, pos + 8, shape[1..]);
      assert shape == [shape[0]] + shape[1..];
    } else {
      assert |PackDims(shape)| == 0;
    }
  }

  /** A description with its name decoded. */
  function DecodedInfo(t: Info): Info { t.(name := Utf8.Repair(t.name)) }

  function Decoded(infos: seq<Info>): (r: seq<Info>)
    ensures |r| == |infos|
  {
    if infos == [] then [] else [DecodedInfo(infos[0])] + Decoded(infos[1..])
  }

  /** Decoding keeps the descriptions exactly when all names are well-formed UTF-8. */
  lemma {:induction false} DecodedKeepsIff(infos: seq<Info>)
    ensures Decoded(infos) == infos <==> forall i | 0 <= i < |infos| :: Utf8.Valid(infos[i].name)
  {
    if infos != [] {
      DecodedKeepsIff(infos[1..]);
      Utf8.RepairKeepsIff(infos[0].name);
      assert infos == [infos[0]] + infos[1..];
      assert Decoded(infos)[0] == DecodedInfo(infos[0]) && Decoded(infos)[1..] == Decoded(infos[1..]);
      forall i | 0 < i < |infos| ensures infos[i] == infos[1..][i - 1] { }
    }
  }

  lemma InfoBack(data: seq<byte>, pos: nat, t: Info)
    requires GoodInfo(t) && At(data, pos, PackInfo(t))
    ensures ReadInfo(data, pos) == Some((DecodedInfo(t), pos + |PackInfo(t)|))
  {
    hide ToLE, FromLE, At, PackString, ReadString, PackDims, ReadDims, Utf8.Repair;
    var a, b, c, d, e := PackString(t.name), ToLE(|t.shape|, 4), PackDims(t.shape), ToLE(t.gtype, 4), ToLE(t.offset, 8);
    AtSplit(data, pos, a, b + (c + (d + e)));
    StringBack(data, pos, t.name);
    var p := pos + |a|;
    AtSplit(data, p, b, c + (d + e));
    AtField(data, p, |t.shape|);
    AtFits(data, p, b);
    AtSplit(data, p + 4, c, d + e);
    DimsBack(data, p + 4, t.shape);
    AtFits(data, p + 4, c);
    AtSplit(data, p + 4 + |c|, d, e);
    AtField(data, p + 4 + |c|, t.gtype);
    AtField(data, p + 8 + |c|, t.offset);
    AtFits(data, p + 4 + |c|, d);
    AtFits(data, p + 8 + |c|, e);
  }

  predicate GoodInfos(infos: seq<Info>) { forall i | 0 <= i < |infos| :: GoodInfo(infos[i]) }

  lemma InfosStep(data: seq<byte>, pos: nat, t: Info, q: nat, n: nat)
    requires n > 0 && ReadInfo(data, pos) == Some((t, q))
    ensures ReadInfos(data, pos, n) ==
            match ReadInfos(data, q, n - 1) case None => None case Some(rest) => Some(([t] + rest.0, rest.1))
  {
    hide ReadInfo;
  }

  lemma GoodInfosParts(infos: seq<Info>)
    requires GoodInfos(infos) && infos != []
    ensures GoodInfo(infos[0]) && GoodInfos(infos[1..])
  {
    hide GoodInfo;
  }

  lemma {:induction false} InfosBack(data: seq<byte>, pos: nat, infos: seq<Info>)
    requires GoodInfos(infos) && At(data, pos, PackInfos(infos))
    ensures ReadInfos(data, pos, |infos|) == Some((Decoded(infos), pos + |PackInfos(infos)|))
    decreases infos
  {
    hide At, PackInfo, ReadInfo, GoodInfo, GoodInfos, DecodedInfo;
    if infos != [] {
      GoodInfosParts(infos);
      AtSplit(data, pos, PackInfo(infos[0]), PackInfos(infos[1..]));
      InfoBack(data, pos, infos[0]);
      InfosBack(data, pos + |PackInfo(infos[0])|, infos[1..]);
      InfosStep(data, pos, DecodedInfo(infos[0]), pos + |PackInfo(infos[0])|, |infos|);
    }
  }

  // ---- The file -------------------------------------------------------------

  lemma HeadBack(f: File, data: seq<byte>)
    requires GoodFile(f) && At(data, 0, PackHead(f))
    ensures Slice(data, 0, 4) == GGUF_MAGIC && 24 <= |data| && Get64(data, 8) == |f.infos| && Get64(data, 16) == |f.kvs|
    ensures SkipPairs(data, 24, |f.kvs|) == Some(24 + |PackPairs(f.kvs)|)
    ensures ReadInfos(data, 24 + |PackPairs(f.kvs)|, |f.infos|) == Some((Decoded(f.infos), |PackHead(f)|))
  {
    hide ToLE, FromLE, At, PackPairs, PackInfos, SkipPairs, ReadInfos, GoodPair, GoodInfo, Decoded;
    assert GoodPairs(f.kvs) && GoodInfos(f.infos);
    var b, c, d, e, g := ToLE(f.version, 4), ToLE(|f.infos|, 8), ToLE(|f.kvs|, 8), PackPairs(f.kvs), PackInfos(f.infos);
    AtSplit(data, 0, GGUF_MAGIC, b + (c + (d + (e + g))));
    AtSplit(data, 4, b, c + (d + (e + g)));
    AtSplit(data, 8, c, d + (e + g));
    AtField(data, 8, |f.infos|);
    AtSplit(data, 16, d, e + g);
    AtField(data, 16, |f.kvs|);
    AtFits(data, 16, d);
    AtSplit(data, 24, e, g);
    PairsBack(data, 24, f.kvs);
    InfosBack(data, 24 + |e|, f.infos);
    assert Slice(data, 0, 4) == GGUF_MAGIC by { MagicBack(data); }
  }

  lemma MagicBack(data: seq<byte>)
    requires At(data, 0, GGUF_MAGIC)
    ensures Slice(data, 0, 4) == GGUF_MAGIC
  {
  }

  /** What a conversion should yield: the selected tensors with their original bytes, in order. */
  function Wanted(infos: seq<Info>, section: seq<byte>, filter: set<seq<byte>>): seq<Tensor>
    requires InBounds(infos, section, filter)
  {
    if infos == [] then []
    else
      var pre, t := infos[..|infos| - 1], infos[|infos| - 1];
      Wanted(pre, section, filter) +
      (if Selected(t, filter) then [Tensor(t.name, StfDtype(t.gtype).value, t.shape, section[t.offset..t.offset + ByteCount(t)])] else [])
  }

  predicate InBounds(infos: seq<Info>, section: seq<byte>, filter: set<seq<byte>>)
  {
    forall i | 0 <= i < |infos| && Selected(infos[i], filter) :: infos[i].offset + ByteCount(infos[i]) <= |section|
  }

  lemma {:induction false} TakenIsWanted(infos: seq<Info>, data: seq<byte>, base: nat, section: seq<byte>, filter: set<seq<byte>>)
    requires InBounds(infos, section, filter) && base <= |data| && data[base..] == section
    ensures TakeAll(infos, data, base, filter) == Wanted(infos, section, filter)
  {
    if infos != [] {
      hide ByteCount, StfDtype;
      var pre, t := infos[..|infos| - 1], infos[|infos| - 1];
      TakenIsWanted(pre, data, base, section, filter);
      if Selected(t, filter) {
        SliceOfSlice(data, base, |data|, t.offset, t.offset + ByteCount(t));
        assert data[base..] == data[base..|data|];
      }
    }
  }

  /** The reader undoes the printer on every well-formed file, up to the decoding of the names. */
  lemma ReadBack(f: File, filter: set<seq<byte>>)
    requires GoodFile(f) && InBounds(Decoded(f.infos), f.data, filter)
    ensures ReadFile(PackFile(f), filter) == Some(Wanted(Decoded(f.infos), f.data, filter))
  {
    hide PackHead, ReadInfos, SkipPairs, TakeAll, Wanted, GoodFile, InBounds, Get64, Decoded;
    var data, head := PackFile(f), PackHead(f);
    var base := Align32(|head|);
    assert data == head + (Zeros(base - |head|) + f.data);
    assert At(data, 0, head);
    HeadBack(f, data);
    assert data[base..] == f.data;
    TakenIsWanted(Decoded(f.infos), data, base, f.data, filter);
  }

  // ---- The conversion -------------------------------------------------------

  /** The converter's main path: read, refuse an empty selection, write. */
  method Convert(data: seq<byte>, filter: set<seq<byte>>, modelName: seq<byte>) returns (r: Option<seq<byte>>)
    ensures match ReadFile(data, filter)
            case None => r == None
            case Some(ts) => r == if ts != [] && AllPackable(ts) then Some(FileOf(ts, modelName)) else None
  {
    hide AllPackable, FileOf, ReadFile;
    var reader := new Reader(data);
    var tensors := reader.ReadGguf(filter);
    if tensors == None || tensors.value == [] { return None; }
    r := WriteStf(tensors.value, modelName);
  }

  /**
   Conversion preserves tensors: of a well-formed GGUF file, each selected supported tensor is
   found in the STF output under its name as decoded, with its original shape and bytes.
   */
  method ConvertThenFind(f: File, filter: set<seq<byte>>, modelName: seq<byte>, i: nat) returns (found: Option<Tensor>)
    requires GoodFile(f) && InBounds(Decoded(f.infos), f.data, filter)
    requires var ts := Wanted(Decoded(f.infos), f.data, filter);
             && AllPackable(ts) && 1 <= |ts| <= MAX_TENSORS && SomeData(ts) && DistinctNames(ts)
             && (forall j | 0 <= j < |ts| :: GoodName(ts[j].name)) && i < |ts|
    ensures found == Some(Wanted(Decoded(f.infos), f.data, filter)[i])
  {
    hide AllPackable, FileOf, ReadFile, GoodFile, InBounds, Wanted, SomeData, DistinctNames, Decoded;
    ReadBack(f, filter);
    var file := Convert(PackFile(f), filter, modelName);
    var ts := Wanted(Decoded(f.infos), f.data, filter);
    assert file == Some(FileOf(ts, modelName));
    found := FindIn(file.value, ts, modelName, i);
  }
}
