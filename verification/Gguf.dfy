/**
 GGUF input: the file format as a printer (in the way the header generator packs strings and
 pairs), and the converter's reader with its recursive skipping of metadata values.
 */
module Gguf {
  import opened Bytes
  import opened Stf
  import Utf8

  const GGUF_MAGIC: seq<byte> := [0x47, 0x47, 0x55, 0x46]

  // ---- The format -----------------------------------------------------------

  /** A metadata value; arrays carry the type code of their elements. */
  datatype Value =
    | Scalar(code: nat, bytes: seq<byte>)   // all fixed-size types
    | Text(text: seq<byte>)                 // type 8
    | Array(elem: nat, items: seq<Value>)   // type 9

  /** The sizes of the fixed-size types: integers, floats and bool. */
  function FixedSize(code: nat): nat
  {
    match code
    case 0 => 1 case 1 => 1 case 2 => 2 case 3 => 2 case 4 => 4 case 5 => 4 case 6 => 4 case 7 => 1
    case 10 => 8 case 11 => 8 case 12 => 8
    case _ => 0
  }

  function TypeCode(v: Value): nat
  {
    match v case Scalar(code, _) => code case Text(_) => 8 case Array(_, _) => 9
  }

  /** A value of one of the thirteen types, its arrays homogeneous, nested to any depth. */
  predicate WellFormed(v: Value)
  {
    match v
    case Scalar(code, bytes) => code <= 12 && code != 8 && code != 9 && |bytes| == FixedSize(code)
    case Text(text) => |text| < TWO64
    case Array(elem, items) =>
      elem <= 12 && |items| < TWO64 && forall i | 0 <= i < |items| :: TypeCode(items[i]) == elem && WellFormed(items[i])
  }

  function PackString(s: seq<byte>): seq<byte>
  {
    ToLE(|s|, 8) + s
  }

  function PackValue(v: Value): seq<byte>
  {
    match v
    case Scalar(_, bytes) => bytes
    case Text(text) => PackString(text)
    case Array(elem, items) => ToLE(elem, 4) + ToLE(|items|, 8) + PackItems(items)
  }

  function PackItems(items: seq<Value>): seq<byte>
  {
    if items == [] then [] else PackValue(items[0]) + PackItems(items[1..])
  }

  datatype Pair = Pair(key: seq<byte>, value: Value)

  function PackPair(kv: Pair): seq<byte>
  {
    PackString(kv.key) + (ToLE(TypeCode(kv.value), 4) + PackValue(kv.value))
  }

  function PackPairs(kvs: seq<Pair>): seq<byte>
  {
    if kvs == [] then [] else PackPair(kvs[0]) + PackPairs(kvs[1..])
  }

  datatype Info = Info(name: seq<byte>, shape: seq<nat>, gtype: nat, offset: nat)

  function PackDims(shape: seq<nat>): (s: seq<byte>)
    ensures |s| == 8 * |shape|
  {
    if shape == [] then [] else ToLE(shape[0], 8) + PackDims(shape[1..])
  }

  function PackInfo(t: Info): seq<byte>
  {
    PackString(t.name) + (ToLE(|t.shape|, 4) + (PackDims(t.shape) + (ToLE(t.gtype, 4) + ToLE(t.offset, 8))))
  }

  function PackInfos(infos: seq<Info>): seq<byte>
  {
    if infos == [] then [] else PackInfo(infos[0]) + PackInfos(infos[1..])
  }

  datatype File = File(version: nat, kvs: seq<Pair>, infos: seq<Info>, data: seq<byte>)

  function PackHead(f: File): seq<byte>
  {
    GGUF_MAGIC + (ToLE(f.version, 4) + (ToLE(|f.infos|, 8) + (ToLE(|f.kvs|, 8) + (PackPairs(f.kvs) + PackInfos(f.infos)))))
  }

  function Align32(n: nat): (r: nat)
    ensures n <= r < n + 32
  {
    (n + 31) / 32 * 32
  }

  function PackFile(f: File): seq<byte>
  {
    PackHead(f) + Zeros(Align32(|PackHead(f)|) - |PackHead(f)|) + f.data
  }

  predicate GoodInfo(t: Info)
  {
    |t.name| < TWO64 && |t.shape| < TWO32 && (forall i | 0 <= i < |t.shape| :: t.shape[i] < TWO64) && t.gtype < TWO32 && t.offset < TWO64
  }

  predicate GoodPair(kv: Pair) { |kv.key| < TWO64 && WellFormed(kv.value) }

  predicate GoodFile(f: File)
  {
    && f.version < TWO32 && |f.kvs| < TWO64 && |f.infos| < TWO64
    && (forall i | 0 <= i < |f.kvs| :: GoodPair(f.kvs[i]))
    && (forall i | 0 <= i < |f.infos| :: GoodInfo(f.infos[i]))
  }

  // ---- The reader, as functions of the position -----------------------------

  /** Fields are read only when they lie inside the data; otherwise unpacking raises an error. */
  function Read32(data: seq<byte>, pos: nat): Option<nat>
  {
    if pos + 4 <= |data| then Some(Get32(data, pos)) else None
  }

  function Read64(data: seq<byte>, pos: nat): Option<nat>
  {
    if pos + 8 <= |data| then Some(Get64(data, pos)) else None
  }

  function Left(data: seq<byte>, pos: nat): nat { if pos <= |data| then |data| - pos else 0 }

  /** The position after a value of the given type; None is an error. */
  function SkipValue(data: seq<byte>, pos: nat, vtype: nat): (r: Option<nat>)
    ensures r.Some? ==> pos <= r.value
    decreases Left(data, pos), 0, 0
  {
    if vtype == 8 then
      match Read64(data, pos)
      case None => None
      case Some(slen) => Some(pos + 8 + slen)
    else if vtype == 9 then
      if pos + 12 <= |data| then SkipItems(data, pos + 12, Get32(data, pos), Get64(data, pos + 4)) else None
    else Some(pos + FixedSize(vtype))
  }

  function SkipItems(data: seq<byte>, pos: nat, atype: nat, n: nat): (r: Option<nat>)
    ensures r.Some? ==> pos <= r.value
    decreases Left(data, pos), 1, n
  {
    if n == 0 then Some(pos)
    else
      match SkipValue(data, pos, atype)
      case None => None
      case Some(q) => SkipItems(data, q, atype, n - 1)
  }

  /** Python slicing: bounds past the end are cut off. */
  function Slice(data: seq<byte>, lo: nat, n: nat): seq<byte>
  {
    if lo >= |data| then [] else if lo + n > |data| then data[lo..] else data[lo..lo + n]
  }

  /** A slice holds the bytes from lo on, as many as there are up to n. */
  lemma SliceIs(data: seq<byte>, lo: nat, n: nat)
    ensures var s := Slice(data, lo, n);
            && |s| == (if lo >= |data| then 0 else if lo + n <= |data| then n else |data| - lo)
            && forall i | 0 <= i < |s| :: s[i] == data[lo + i]
  {
  }

  /** A string, decoded with errors replaced. */
  function ReadString(data: seq<byte>, pos: nat): Option<(seq<byte>, nat)>
  {
    match Read64(data, pos)
    case None => None
    case Some(slen) => Some((Utf8.Repair(Slice(data, pos + 8, slen)), pos + 8 + slen))
  }

  function SkipPairs(data: seq<byte>, pos: nat, n: nat): Option<nat>
    decreases n
  {
    if n == 0 then Some(pos)
    else
      match ReadString(data, pos)
      case None => None
      case Some(key) =>
        match Read32(data, key.1)
        case None => None
        case Some(vtype) =>
          match SkipValue(data, key.1 + 4, vtype)
          case None => None
          case Some(q) => SkipPairs(data, q, n - 1)
  }

  function ReadDims(data: seq<byte>, pos: nat, n: nat): (s: seq<nat>)
    requires pos + 8 * n <= |data|
    ensures |s| == n
    decreases n
  {
    if n == 0 then [] else [Get64(data, pos)] + ReadDims(data, pos + 8, n - 1)
  }

  function ReadInfo(data: seq<byte>, pos: nat): Option<(Info, nat)>
  {
    match ReadString(data, pos)
    case None => None
    case Some(name) =>
      match Read32(data, name.1)
      case None => None
      case Some(ndim) =>
        var p := name.1 + 4;
        if p + 8 * ndim > |data| then None
        else
          match Read32(data, p + 8 * ndim)
          case None => None
          case Some(gtype) =>
            match Read64(data, p + 8 * ndim + 4)
            case None => None
            case Some(offset) => Some((Info(name.0, ReadDims(data, p, ndim), gtype, offset), p + 8 * ndim + 12))
  }

  function ReadInfos(data: seq<byte>, pos: nat, n: nat): Option<(seq<Info>, nat)>
    decreases n
  {
    if n == 0 then Some(([], pos))
    else
      match ReadInfo(data, pos)
      case None => None
      case Some(first) =>
        match ReadInfos(data, first.1, n - 1)
        case None => None
        case Some(rest) => Some(([first.0] + rest.0, rest.1))
  }

  // ---- Which tensors are taken, and how many bytes of each ------------------

  function StfDtype(gtype: nat): Option<nat>
  {
    match gtype case 0 => Some(2) case 1 => Some(1) case 8 => Some(3) case 32 => Some(0) case _ => None
  }

  function Elements(shape: seq<nat>): nat
  {
    if shape == [] then 1 else Elements(shape[..|shape| - 1]) * shape[|shape| - 1]
  }

  function ByteCount(t: Info): nat
  {
    var n := Elements(t.shape);
    match t.gtype
    case 8 => (n + 31) / 32 * 34
    case 1 => n * 2
    case 0 => n * 4
    case _ => n
  }

  predicate Selected(t: Info, filter: set<seq<byte>>)
  {
    (filter == {} || t.name in filter) && StfDtype(t.gtype).Some?
  }

  function Taken(t: Info, data: seq<byte>, base: nat): Tensor
    requires StfDtype(t.gtype).Some?
  {
    Tensor(t.name, StfDtype(t.gtype).value, t.shape, Slice(data, base + t.offset, ByteCount(t)))
  }

  function TakeAll(infos: seq<Info>, data: seq<byte>, base: nat, filter: set<seq<byte>>): seq<Tensor>
  {
    if infos == [] then []
    else
      var pre, t := infos[..|infos| - 1], infos[|infos| - 1];
      TakeAll(pre, data, base, filter) + (if Selected(t, filter) then [Taken(t, data, base)] else [])
  }

  /** The whole reader; None is any of its errors. */
  function ReadFile(data: seq<byte>, filter: set<seq<byte>>): Option<seq<Tensor>>
  {
    if Slice(data, 0, 4) != GGUF_MAGIC || 24 > |data| then None
    else
      match SkipPairs(data, 24, Get64(data, 16))
      case None => None
      case Some(p) =>
        match ReadInfos(data, p, Get64(data, 8))
        case None => None
        case Some(infos) => Some(TakeAll(infos.0, data, Align32(infos.1), filter))
  }

  /** The widths of the scalar types: bytes and booleans, 16-bit, 32-bit and 64-bit numbers. */
  lemma ScalarWidths(code: nat)
    requires code != 8 && code != 9
    ensures FixedSize(code) == 0 <==> code > 12
    ensures FixedSize(code) == 1 <==> code in {0, 1, 7}
    ensures FixedSize(code) == 2 <==> code in {2, 3}
    ensures FixedSize(code) == 4 <==> code in {4, 5, 6}
    ensures FixedSize(code) == 8 <==> code in {10, 11, 12}
  {
  }

  /** Nothing is read from a file that does not begin with the letters GGUF and a whole header. */
  lemma MagicRequired(data: seq<byte>, filter: set<seq<byte>>)
    requires ReadFile(data, filter).Some?
    ensures |data| >= 24 && data[0] == 'G' as int && data[1] == 'G' as int && data[2] == 'U' as int && data[3] == 'F' as int
  {
    hide SkipPairs, ReadInfos, TakeAll;
    assert Slice(data, 0, 4) == data[0..4] == [0x47, 0x47, 0x55, 0x46];
  }

  // ---- The reader as it runs: a moving position -----------------------------

  class Reader {
    const data: seq<byte>
    var pos: nat

    constructor (data: seq<byte>)
      ensures this.data == data && pos == 0
    {
      this.data := data;
      pos := 0;
    }

    method NextString() returns (r: Option<seq<byte>>)
      modifies this
      ensures match ReadString(data, old(pos))
              case None => r == None
              case Some(s) => r == Some(s.0) && pos == s.1
    {
      if pos + 8 > |data| { return None; }
      var slen := Get64(data, pos);
      pos := pos + 8;
      r := Some(Utf8.Repair(Slice(data, pos, slen)));
      pos := pos + slen;
    }

    /** Skips one value, recursing into arrays; false is an error. */
    method Skip(vtype: nat) returns (ok: bool)
      modifies this
      ensures ok == SkipValue(data, old(pos), vtype).Some?
      ensures ok ==> pos == SkipValue(data, old(pos), vtype).value
      decreases Left(data, pos)
    {
      if vtype == 8 {
        if pos + 8 > |data| { return false; }
        pos := pos + 8 + Get64(data, pos);
      } else if vtype == 9 {
        if pos + 12 > |data| { return false; }
        var atype, alen := Get32(data, pos), Get64(data, pos + 4);
        pos := pos + 12;
        ghost var start := pos;
        var k := alen;
        while k > 0
          invariant start <= pos
          invariant SkipItems(data, start, atype, alen) == SkipItems(data, pos, atype, k)
        {
          var ok' := Skip(atype);
          if !ok' { return false; }
          k := k - 1;
        }
      } else {
        pos := pos + FixedSize(vtype);
      }
      return true;
    }

    method SkipMetadata(n: nat) returns (ok: bool)
      modifies this
      ensures ok == SkipPairs(data, old(pos), n).Some?
      ensures ok ==> pos == SkipPairs(data, old(pos), n).value
    {
      hide ReadString, SkipValue, Get32;
      var k := n;
      while k > 0
        invariant SkipPairs(data, old(pos), n) == SkipPairs(data, pos, k)
      {
        var key := NextString();
        if key == None || pos + 4 > |data| { return false; }
        var vtype := Get32(data, pos);
        pos := pos + 4;
        var ok' := Skip(vtype);
        if !ok' { return false; }
        k := k - 1;
      }
      return true;
    }

    method NextInfo() returns (r: Option<Info>)
      modifies this
      ensures match ReadInfo(data, old(pos))
              case None => r == None
              case Some(t) => r == Some(t.0) && pos == t.1
    {
      var name := NextString();
      if name == None || pos + 4 > |data| { return None; }
      var ndim := Get32(data, pos);
      pos := pos + 4;
      if pos + 8 * ndim > |data| { return None; }
      var shape := ReadDims(data, pos, ndim);
      pos := pos + 8 * ndim;
      if pos + 4 > |data| { return None; }
      var gtype := Get32(data, pos);
      pos := pos + 4;
      if pos + 8 > |data| { return None; }
      var offset := Get64(data, pos);
      pos := pos + 8;
      r := Some(Info(name.value, shape, gtype, offset));
    }

    method Infos(n: nat) returns (r: Option<seq<Info>>)
      modifies this
      ensures match ReadInfos(data, old(pos), n)
              case None => r == None
              case Some(t) => r == Some(t.0) && pos == t.1
    {
      hide ReadInfo;
      var k, infos: seq<Info> := n, [];
      PrependNil(ReadInfos(data, pos, n));
      while k > 0
        invariant ReadInfos(data, old(pos), n) == Prepend(infos, ReadInfos(data, pos, k))
      {
        var t := NextInfo();
        if t == None { return None; }
        PrependStep(infos, t.value, data, pos, k);
        infos := infos + [t.value];
        k := k - 1;
      }
      assert infos + [] == infos;
      r := Some(infos);
    }

    /** The reader from the start of the file. */
    method ReadGguf(filter: set<seq<byte>>) returns (r: Option<seq<Tensor>>)
      modifies this
      ensures r == ReadFile(data, filter)
    {
      hide SkipPairs, ReadInfos, Taken, StfDtype, Get64, Align32;
      if Slice(data, 0, 4) != GGUF_MAGIC { return None; }
      pos := 4;
      if pos + 20 > |data| { return None; }
      var nTensors, nKv := Get64(data, pos + 4), Get64(data, pos + 12);
      pos := pos + 20;
      var ok := SkipMetadata(nKv);
      if !ok { return None; }
      var infos := Infos(nTensors);
      if infos == None { return None; }
      var dataBase := Align32(pos);
      var tensors: seq<Tensor> := [];
      for i := 0 to |infos.value|
        invariant tensors == TakeAll(infos.value[..i], data, dataBase, filter)
      {
        var t := infos.value[i];
        assert infos.value[..i + 1][..i] == infos.value[..i];
        if filter != {} && t.name !in filter { continue; }
        if StfDtype(t.gtype) == None { continue; }
        tensors := tensors + [Taken(t, data, dataBase)];
      }
      assert infos.value[..|infos.value|] == infos.value;
      r := Some(tensors);
    }
  }

  ghost function Prepend(a: seq<Info>, r: Option<(seq<Info>, nat)>): Option<(seq<Info>, nat)>
  {
    match r case None => None case Some(x) => Some((a + x.0, x.1))
  }

  lemma PrependNil(r: Option<(seq<Info>, nat)>)
    ensures Prepend([], r) == r
  {
    if r.Some? { assert [] + r.value.0 == r.value.0; }
  }

  lemma PrependStep(a: seq<Info>, t: Info, data: seq<byte>, pos: nat, k: nat)
    requires k > 0
    ensures match ReadInfos(data, pos, k - 1)
            case None => true
            case Some(rest) => a + ([t] + rest.0) == (a + [t]) + rest.0
  {
  }
}
