/**
 The recursive PCI scan: depth-first over bridges with a 256-bit visited bitmap, classifying every
 function it meets. The configuration space is a fixed function, its bus graph arbitrary.
 */
module Pci {
  import opened Bytes

  /** The dword at (bus, device, function, register). */
  type Config = (nat, nat, nat, nat) -> u32

  datatype Fn = Fn(bus: nat, dev: nat, fn: nat)

  // ---- Reading configuration space ------------------------------------------

  predicate Valid(id: u32) { id != 0xFFFF_FFFF && id != 0 }

  function HeaderType(cfg: Config, bus: nat, dev: nat, fn: nat): nat { cfg(bus, dev, fn, 0x0C) / 0x1_0000 % 256 }

  function Secondary(cfg: Config, bus: nat, dev: nat, fn: nat): (s: nat)
    ensures s < 256
  {
    cfg(bus, dev, fn, 0x18) / 0x100 % 256
  }

  function Class(cfg: Config, x: Fn): nat { cfg(x.bus, x.dev, x.fn, 0x08) / 0x1_0000 }

  function ProgIf(cfg: Config, x: Fn): nat { cfg(x.bus, x.dev, x.fn, 0x08) / 0x100 % 256 }

  /** A function that exists: function 0 answers, and others only on multifunction devices. */
  predicate Exists(cfg: Config, x: Fn)
  {
    x.dev < 32 && x.fn < 8 && Valid(cfg(x.bus, x.dev, 0, 0))
    && (x.fn == 0 || (HeaderType(cfg, x.bus, x.dev, 0) >= 0x80 && Valid(cfg(x.bus, x.dev, x.fn, 0))))
  }

  predicate IsBridge(cfg: Config, x: Fn) { HeaderType(cfg, x.bus, x.dev, x.fn) % 0x80 == 1 }

  function Behind(cfg: Config, x: Fn): (s: nat)
    ensures s < 256
  {
    Secondary(cfg, x.bus, x.dev, x.fn)
  }

  // ---- Configuration bytes --------------------------------------------------

  /** Byte off of a function's configuration space: dwords are read little-endian. */
  function ConfigByte(cfg: Config, x: Fn, off: nat): byte
  {
    ToLE(cfg(x.bus, x.dev, x.fn, off / 4 * 4), 4)[off % 4]
  }

  /** A dword is made of its four bytes, lowest first. */
  lemma DwordBytes(cfg: Config, x: Fn, reg: nat, b0: byte, b1: byte, b2: byte, b3: byte)
    requires reg % 4 == 0 && cfg(x.bus, x.dev, x.fn, reg) == FromLE([b0, b1, b2, b3])
    ensures ConfigByte(cfg, x, reg) == b0 && ConfigByte(cfg, x, reg + 1) == b1
    ensures ConfigByte(cfg, x, reg + 2) == b2 && ConfigByte(cfg, x, reg + 3) == b3
  {
    LEBack(b0, b1, b2, b3);
    assert (reg + 1) / 4 * 4 == reg && (reg + 2) / 4 * 4 == reg && (reg + 3) / 4 * 4 == reg;
  }

  lemma LEBack(b0: byte, b1: byte, b2: byte, b3: byte)
    ensures FromLE([b0, b1, b2, b3]) == b0 as int + 0x100 * b1 as int + 0x1_0000 * b2 as int + 0x100_0000 * b3 as int
    ensures ToLE(FromLE([b0, b1, b2, b3]), 4) == [b0, b1, b2, b3]
  {
    var s: seq<byte> := [b0, b1, b2, b3];
    FieldBytes(s, 0);
    assert s[0..4] == s;
    DwordParts(b0, b1, b2, b3);
    LEDigits(FromLE(s));
  }

  lemma DwordParts(b0: byte, b1: byte, b2: byte, b3: byte)
    ensures var v := b0 as int + 0x100 * b1 as int + 0x1_0000 * b2 as int + 0x100_0000 * b3 as int;
            v % 0x100 == b0 && v / 0x100 % 0x100 == b1 && v / 0x1_0000 % 0x100 == b2 && v / 0x100_0000 == b3
  {
    var v := b0 as int + 0x100 * b1 as int + 0x1_0000 * b2 as int + 0x100_0000 * b3 as int;
    assert v / 0x100 == b1 as int + 0x100 * (b2 as int + 0x100 * b3 as int);
    assert v / 0x1_0000 == b2 as int + 0x100 * b3 as int;
  }

  lemma LEDigits(v: u32)
    ensures ToLE(v, 4) == [v % 0x100, v / 0x100 % 0x100, v / 0x1_0000 % 0x100, v / 0x100_0000]
  {
    var w := v / 0x100;
    var z := w / 0x100;
    assert z == v / 0x1_0000 && z / 0x100 == v / 0x100_0000;
    assert ToLE(v, 4) == [v % 0x100] + ToLE(w, 3);
    assert ToLE(w, 3) == [w % 0x100] + ToLE(z, 2);
    assert ToLE(z, 2) == [z % 0x100] + ToLE(z / 0x100, 1);
    assert ToLE(z / 0x100, 1) == [z / 0x100 % 0x100] + ToLE(z / 0x100 / 0x100, 0);
  }

  /** What the scan reads, as bytes at their offsets in configuration space. */
  lemma RegisterLayout(cfg: Config, x: Fn)
    ensures Behind(cfg, x) == ConfigByte(cfg, x, 0x19)
    ensures HeaderType(cfg, x.bus, x.dev, x.fn) == ConfigByte(cfg, x, 0x0E)
    ensures IsBridge(cfg, x) <==> ConfigByte(cfg, x, 0x0E) % 0x80 == 1
    ensures Class(cfg, x) == 0x100 * ConfigByte(cfg, x, 0x0B) as int + ConfigByte(cfg, x, 0x0A) as int
    ensures ProgIf(cfg, x) == ConfigByte(cfg, x, 0x09)
  {
    hide ToLE;
    LEDigits(cfg(x.bus, x.dev, x.fn, 0x18));
    LEDigits(cfg(x.bus, x.dev, x.fn, 0x0C));
    LEDigits(cfg(x.bus, x.dev, x.fn, 0x08));
    HalfBytes(cfg(x.bus, x.dev, x.fn, 0x08));
  }

  lemma HalfBytes(v: u32)
    ensures v / 0x1_0000 == 0x100 * (v / 0x100_0000) + v / 0x1_0000 % 0x100
    ensures v % 0x1_0000 == 0x100 * (v / 0x100 % 0x100) + v % 0x100
  {
    assert v / 0x100_0000 == v / 0x1_0000 / 0x100;
    assert v % 0x1_0000 == v - 0x1_0000 * (v / 0x1_0000);
    assert v / 0x1_0000 == v / 0x100 / 0x100;
  }

  /** A bus number register with primary p, secondary s, subordinate u and latency l puts bus s behind the bridge. */
  lemma SecondaryIsBehind(cfg: Config, x: Fn, p: byte, s: byte, u: byte, l: byte)
    requires cfg(x.bus, x.dev, x.fn, 0x18) == FromLE([p, s, u, l])
    ensures Behind(cfg, x) == s
    ensures Exists(cfg, x) && IsBridge(cfg, x) ==> Edge(cfg, x.bus, s)
  {
    hide Exists, IsBridge, ConfigByte, HeaderType;
    RegisterLayout(cfg, x);
    DwordBytes(cfg, x, 0x18, p, s, u, l);
    assert Exists(cfg, x) && IsBridge(cfg, x) ==> Edge(cfg, x.bus, Behind(cfg, x));
  }

  /** A cache-line, latency, header-type and self-test register says whether this is a bridge and a multifunction device. */
  lemma HeaderTypeIs(cfg: Config, x: Fn, c: byte, l: byte, h: byte, t: byte)
    requires cfg(x.bus, x.dev, x.fn, 0x0C) == FromLE([c, l, h, t])
    ensures IsBridge(cfg, x) <==> h == 0x01 || h == 0x81
    ensures HeaderType(cfg, x.bus, x.dev, x.fn) >= 0x80 <==> h >= 0x80
  {
    hide ConfigByte;
    RegisterLayout(cfg, x);
    DwordBytes(cfg, x, 0x0C, c, l, h, t);
  }

  /** The function's vendor and device bytes are neither all zero nor all ones. */
  predicate Answers(cfg: Config, x: Fn)
  {
    var b := [ConfigByte(cfg, x, 0), ConfigByte(cfg, x, 1), ConfigByte(cfg, x, 2), ConfigByte(cfg, x, 3)];
    b != [0, 0, 0, 0] && b != [0xFF, 0xFF, 0xFF, 0xFF]
  }

  lemma AnswersIff(cfg: Config, x: Fn)
    ensures Answers(cfg, x) <==> Valid(cfg(x.bus, x.dev, x.fn, 0))
  {
    hide ToLE;
    var v := cfg(x.bus, x.dev, x.fn, 0);
    LEDigits(v);
    HalfBytes(v);
    assert v == 0x1_0000 * (v / 0x1_0000) + v % 0x1_0000;
    var d := ToLE(v, 4);
    assert v == d[0] as int + 0x100 * d[1] as int + 0x1_0000 * d[2] as int + 0x100_0000 * d[3] as int;
    assert ConfigByte(cfg, x, 0) == d[0] && ConfigByte(cfg, x, 1) == d[1] && ConfigByte(cfg, x, 2) == d[2] && ConfigByte(cfg, x, 3) == d[3];
    assert d == [d[0], d[1], d[2], d[3]];
  }

  /** The bus graph and the functions on it, in configuration bytes alone. */
  lemma EdgeIff(cfg: Config, bus: nat, to: nat)
    ensures Edge(cfg, bus, to) <==>
            exists x: Fn :: x.bus == bus && x.dev < 32 && x.fn < 8 && Answers(cfg, x) && Answers(cfg, x.(fn := 0))
                            && (x.fn == 0 || ConfigByte(cfg, x.(fn := 0), 0x0E) >= 0x80)
                            && ConfigByte(cfg, x, 0x0E) % 0x80 == 1 && ConfigByte(cfg, x, 0x19) == to
  {
    hide ConfigByte, Answers, HeaderType, Valid;
    forall x: Fn
      ensures Exists(cfg, x) <==> x.dev < 32 && x.fn < 8 && Answers(cfg, x) && Answers(cfg, x.(fn := 0))
                                  && (x.fn == 0 || ConfigByte(cfg, x.(fn := 0), 0x0E) >= 0x80)
      ensures IsBridge(cfg, x) <==> ConfigByte(cfg, x, 0x0E) % 0x80 == 1
      ensures Behind(cfg, x) == ConfigByte(cfg, x, 0x19) {
      ExistsIff(cfg, x);
      RegisterLayout(cfg, x);
    }
  }

  lemma ExistsIff(cfg: Config, x: Fn)
    ensures Exists(cfg, x) <==> x.dev < 32 && x.fn < 8 && Answers(cfg, x) && Answers(cfg, x.(fn := 0))
                                && (x.fn == 0 || ConfigByte(cfg, x.(fn := 0), 0x0E) >= 0x80)
  {
    hide ConfigByte, Answers, HeaderType, Valid;
    AnswersIff(cfg, x);
    AnswersIff(cfg, x.(fn := 0));
    RegisterLayout(cfg, x.(fn := 0));
    assert x.fn == 0 ==> x.(fn := 0) == x;
  }

  // ---- The bus graph --------------------------------------------------------

  ghost predicate Edge(cfg: Config, bus: nat, to: nat)
  {
    exists x: Fn :: x.bus == bus && Exists(cfg, x) && IsBridge(cfg, x) && Behind(cfg, x) == to
  }

  ghost predicate IsPath(cfg: Config, p: seq<nat>, src: nat, dst: nat)
  {
    |p| > 0 && p[0] == src && p[|p| - 1] == dst && forall i {:trigger p[i]} | 0 < i < |p| :: Edge(cfg, p[i - 1], p[i])
  }

  ghost predicate Reaches(cfg: Config, src: nat, dst: nat)
  {
    exists p: seq<nat> :: IsPath(cfg, p, src, dst)
  }

  lemma ReachesSelf(cfg: Config, b: nat)
    ensures Reaches(cfg, b, b)
  {
    assert IsPath(cfg, [b], b, b);
  }

  lemma EdgeThenReaches(cfg: Config, a: nat, b: nat, c: nat)
    requires Edge(cfg, a, b) && Reaches(cfg, b, c)
    ensures Reaches(cfg, a, c)
  {
    var p :| IsPath(cfg, p, b, c);
    var q := [a] + p;
    forall i | 0 < i < |q| ensures Edge(cfg, q[i - 1], q[i]) {
      if i > 1 { assert q[i] == p[i - 1] && q[i - 1] == p[i - 2]; }
    }
    assert IsPath(cfg, q, a, c);
  }

  ghost predicate Closed(cfg: Config, b: nat, s: set<nat>)
  {
    forall to: nat | Edge(cfg, b, to) :: to in s
  }

  /** A set closed under edges holds everything reachable from its members. */
  lemma {:induction false} ReachStaysIn(cfg: Config, p: seq<nat>, src: nat, dst: nat, s: set<nat>)
    requires IsPath(cfg, p, src, dst) && src in s && forall b | b in s :: Closed(cfg, b, s)
    ensures dst in s
    decreases |p|
  {
    if |p| > 1 {
      assert Edge(cfg, p[0], p[1]);
      forall i | 0 < i < |p[1..]| ensures Edge(cfg, p[1..][i - 1], p[1..][i]) {
        assert p[i + 1] == p[1..][i] && p[i] == p[1..][i - 1];
      }
      ReachStaysIn(cfg, p[1..], p[1], dst, s);
    }
  }

  // ---- What a stretch of the scan has done ----------------------------------

  ghost predicate NoDup(s: seq<Fn>)
  {
    forall i, j | 0 <= i < j < |s| :: s[i] != s[j]
  }

  /**
   Between visited sets v0 and v1 the scan logged, once each, the functions own of the bus being
   scanned and all functions of the newly visited buses; those buses are reachable from the bus,
   and the buses behind everything logged are visited.
   */
  ghost predicate Covers(cfg: Config, bus: nat, own: set<Fn>, v0: set<nat>, v1: set<nat>, log: seq<Fn>)
  {
    && v0 <= v1
    && (forall b | b in v1 && b !in v0 :: b < 256 && Reaches(cfg, bus, b) && Closed(cfg, b, v1))
    && (forall x | x in own :: x.bus == bus && Exists(cfg, x) && (IsBridge(cfg, x) ==> Behind(cfg, x) in v1))
    && (forall x: Fn :: x in log <==> x in own || (x.bus in v1 && x.bus !in v0 && Exists(cfg, x)))
    && NoDup(log)
  }

  lemma CoversNothing(cfg: Config, bus: nat, v: set<nat>)
    ensures Covers(cfg, bus, {}, v, v, [])
  {
  }

  lemma NoDupConcat(a: seq<Fn>, b: seq<Fn>)
    requires NoDup(a) && NoDup(b) && forall x | x in a :: x !in b
    ensures NoDup(a + b)
  {
    forall i, j | 0 <= i < j < |a + b| ensures (a + b)[i] != (a + b)[j] {
      if i < |a| <= j { assert a[i] in a && b[j - |a|] in b; }
    }
  }

  lemma CoversConcat(cfg: Config, bus: nat, own1: set<Fn>, own2: set<Fn>, v0: set<nat>, v1: set<nat>, v2: set<nat>, log1: seq<Fn>, log2: seq<Fn>)
    requires Covers(cfg, bus, own1, v0, v1, log1) && Covers(cfg, bus, own2, v1, v2, log2)
    requires bus in v0 && own1 !! own2
    ensures Covers(cfg, bus, own1 + own2, v0, v2, log1 + log2)
  {
    NoDupConcat(log1, log2);
  }

  /** One function: logged, and the bus behind it, if any, scanned or already visited. */
  lemma CoversFunction(cfg: Config, x: Fn, v0: set<nat>, v1: set<nat>, log: seq<Fn>)
    requires Exists(cfg, x) && x.bus in v0
    requires if IsBridge(cfg, x) then Behind(cfg, x) in v1 && Covers(cfg, Behind(cfg, x), {}, v0, v1, log) else v1 == v0 && log == []
    ensures Covers(cfg, x.bus, {x}, v0, v1, [x] + log)
  {
    if IsBridge(cfg, x) {
      forall b | b in v1 && b !in v0 ensures Reaches(cfg, x.bus, b) {
        EdgeThenReaches(cfg, x.bus, Behind(cfg, x), b);
      }
    }
    NoDupConcat([x], log);
  }

  /** A bus all of whose functions are logged counts as newly visited itself. */
  lemma CoversBus(cfg: Config, bus: nat, own: set<Fn>, v0: set<nat>, v1: set<nat>, log: seq<Fn>)
    requires bus < 256 && bus !in v0 && Covers(cfg, bus, own, v0 + {bus}, v1, log)
    requires forall x: Fn :: x in own <==> x.bus == bus && Exists(cfg, x)
    ensures Covers(cfg, bus, {}, v0, v1, log)
  {
    ReachesSelf(cfg, bus);
  }

  // ---- Classification -------------------------------------------------------

  const GPU_NONE: byte := 0
  const GPU_INTEGRATED: byte := 1
  const GPU_MULTI: byte := 3

  datatype Profile = Profile(
    gpuClass: byte, gpuVendor: nat, gpuDevice: nat, storageCount: byte, devCount: nat,
    hasAhci: bool, hasNvme: bool, hasEthernet: bool, hasWireless: bool,
    hasUsb2: bool, hasUsb3: bool, hasAudio: bool, ahciBar5: nat, ataIobase: nat)

  predicate IsDisplay(cfg: Config, x: Fn) { Class(cfg, x) in {0x0300, 0x0301, 0x0302, 0x0380} }

  predicate IsAhci(cfg: Config, x: Fn) { Class(cfg, x) == 0x0106 }

  predicate IsAta(cfg: Config, x: Fn) { Class(cfg, x) == 0x0101 }

  predicate IsNvme(cfg: Config, x: Fn) { Class(cfg, x) == 0x0108 }

  predicate IsUsb(cfg: Config, x: Fn) { Class(cfg, x) == 0x0C03 }

  predicate IsXhci(cfg: Config, x: Fn) { IsUsb(cfg, x) && ProgIf(cfg, x) == 0x30 }

  /** The AHCI base address with its attribute bits cleared. */
  function Abar(cfg: Config, x: Fn): nat { cfg(x.bus, x.dev, x.fn, 0x24) / 16 * 16 }

  function AtaBase(cfg: Config, x: Fn, base: nat): nat
  {
    var bar0 := cfg(x.bus, x.dev, x.fn, 0x10);
    if !IsAta(cfg, x) || base != 0 then base
    else if ProgIf(cfg, x) % 2 == 0 then 0x1F0
    else if bar0 % 2 == 1 then bar0 / 4 * 4 % 0x1_0000
    else base
  }

  /** Counters of one and two bytes wrap around. */
  function Bump8(n: byte): byte { (n + 1) % 256 }

  function Bump16(n: nat): nat { (n + 1) % 0x1_0000 }

  function LowHalf(id: u32): nat { id % 0x1_0000 }

  function HighHalf(id: u32): nat { id / 0x1_0000 }

  function WithDisplay(cfg: Config, p: Profile, x: Fn): Profile
  {
    if !IsDisplay(cfg, x) then p else WithGpu(p, cfg(x.bus, x.dev, x.fn, 0))
  }

  function WithGpu(p: Profile, id: u32): Profile
  {
    var first := p.gpuClass == GPU_NONE;
    p.(gpuClass := if first then GPU_INTEGRATED else GPU_MULTI,
       gpuVendor := if first then LowHalf(id) else p.gpuVendor, gpuDevice := if first then HighHalf(id) else p.gpuDevice)
  }

  function WithStorage(cfg: Config, p: Profile, x: Fn): Profile
  {
    p.(storageCount := if IsAhci(cfg, x) || IsNvme(cfg, x) then Bump8(p.storageCount) else p.storageCount,
       hasAhci := p.hasAhci || IsAhci(cfg, x), hasNvme := p.hasNvme || IsNvme(cfg, x),
       ahciBar5 := if IsAhci(cfg, x) && p.ahciBar5 == 0 then Abar(cfg, x) else p.ahciBar5,
       ataIobase := AtaBase(cfg, x, p.ataIobase))
  }

  function WithConnectivity(cfg: Config, p: Profile, x: Fn): Profile
  {
    p.(hasEthernet := p.hasEthernet || Class(cfg, x) == 0x0200, hasWireless := p.hasWireless || Class(cfg, x) == 0x0280,
       hasUsb2 := p.hasUsb2 || (IsUsb(cfg, x) && !IsXhci(cfg, x)), hasUsb3 := p.hasUsb3 || IsXhci(cfg, x),
       hasAudio := p.hasAudio || Class(cfg, x) == 0x0403)
  }

  function Classified(cfg: Config, p: Profile, x: Fn): Profile
  {
    var p1 := p.(devCount := Bump16(p.devCount));
    WithConnectivity(cfg, WithStorage(cfg, WithDisplay(cfg, p1, x), x), x)
  }

  function ClassifiedAll(cfg: Config, p: Profile, log: seq<Fn>): Profile
  {
    if log == [] then p else Classified(cfg, ClassifiedAll(cfg, p, log[..|log| - 1]), log[|log| - 1])
  }

  lemma {:induction false} ClassifiedConcat(cfg: Config, p: Profile, a: seq<Fn>, b: seq<Fn>)
    ensures ClassifiedAll(cfg, p, a + b) == ClassifiedAll(cfg, ClassifiedAll(cfg, p, a), b)
  {
    if b == [] {
      assert a + b == a;
    } else {
      assert (a + b)[..|a + b| - 1] == a + b[..|b| - 1];
      ClassifiedConcat(cfg, p, a, b[..|b| - 1]);
    }
  }

  const ZERO: Profile := Profile(GPU_NONE, 0, 0, 0, 0, false, false, false, false, false, false, false, 0, 0x1F0)

  // ---- The inventory, independent of visit order ----------------------------

  /** What the inventory asks about a function. */
  datatype Kind =
    | Display | Ahci | Nvme | Storage | Ethernet | Wireless | Ehci | Xhci | Audio
    | BarSet        // an AHCI controller with a nonzero base address
    | BarIs(bar: nat)

  predicate Is(cfg: Config, k: Kind, x: Fn)
  {
    match k
    case Display => IsDisplay(cfg, x)
    case Ahci => IsAhci(cfg, x)
    case Nvme => IsNvme(cfg, x)
    case Storage => IsAhci(cfg, x) || IsNvme(cfg, x)
    case Ethernet => Class(cfg, x) == 0x0200
    case Wireless => Class(cfg, x) == 0x0280
    case Ehci => IsUsb(cfg, x) && !IsXhci(cfg, x)
    case Xhci => IsXhci(cfg, x)
    case Audio => Class(cfg, x) == 0x0403
    case BarSet => IsAhci(cfg, x) && Abar(cfg, x) != 0
    case BarIs(bar) => IsAhci(cfg, x) && Abar(cfg, x) == bar
  }

  /** The kinds of the inventory, by base class, subclass and programming interface. */
  lemma KindBytes(cfg: Config, x: Fn)
    ensures var base, sub, prog := ConfigByte(cfg, x, 0x0B), ConfigByte(cfg, x, 0x0A), ConfigByte(cfg, x, 0x09);
            && (Is(cfg, Display, x) <==> base == 3 && sub in {0x00, 0x01, 0x02, 0x80})
            && (Is(cfg, Ahci, x) <==> base == 1 && sub == 6) && (Is(cfg, Nvme, x) <==> base == 1 && sub == 8)
            && (Is(cfg, Storage, x) <==> base == 1 && (sub == 6 || sub == 8))
            && (Is(cfg, Ethernet, x) <==> base == 2 && sub == 0) && (Is(cfg, Wireless, x) <==> base == 2 && sub == 0x80)
            && (Is(cfg, Xhci, x) <==> base == 0x0C && sub == 3 && prog == 0x30)
            && (Is(cfg, Ehci, x) <==> base == 0x0C && sub == 3 && prog != 0x30)
            && (Is(cfg, Audio, x) <==> base == 4 && sub == 3)
  {
    hide ConfigByte, Class, ProgIf, Abar;
    RegisterLayout(cfg, x);
  }

  /** The AHCI base address is the dword at 0x24 with its four attribute bits cleared. */
  lemma AbarBytes(cfg: Config, x: Fn)
    ensures var b := [ConfigByte(cfg, x, 0x24), ConfigByte(cfg, x, 0x25), ConfigByte(cfg, x, 0x26), ConfigByte(cfg, x, 0x27)];
            Abar(cfg, x) == b[0] as int / 16 * 16 + 0x100 * b[1] as int + 0x1_0000 * b[2] as int + 0x100_0000 * b[3] as int
  {
    hide ToLE;
    var v := cfg(x.bus, x.dev, x.fn, 0x24);
    LEDigits(v);
    HalfBytes(v);
    assert v == 0x1_0000 * (v / 0x1_0000) + v % 0x1_0000;
    var hi := v / 0x100;
    assert v == 0x100 * hi + v % 0x100 && v / 16 == 16 * hi + v % 0x100 / 16;
  }

  /** The ATA base of a legacy controller (class 1, subclass 1) is fixed by bit 0 of its interface byte and by its first base address. */
  lemma AtaBytes(cfg: Config, x: Fn, base: nat)
    ensures var bar0 := cfg(x.bus, x.dev, x.fn, 0x10);
            AtaBase(cfg, x, base) ==
              if base != 0 || ConfigByte(cfg, x, 0x0B) != 1 || ConfigByte(cfg, x, 0x0A) != 1 then base
              else if ConfigByte(cfg, x, 0x09) % 2 == 0 then 0x1F0
              else if bar0 % 2 == 1 then bar0 % 0x1_0000 - bar0 % 4 else 0
  {
    hide ConfigByte, Class, ProgIf;
    RegisterLayout(cfg, x);
    var bar0 := cfg(x.bus, x.dev, x.fn, 0x10);
    var q := bar0 / 4;
    assert bar0 == 4 * q + bar0 % 4;
    assert q / 0x4000 == bar0 / 0x1_0000;
    assert q == 0x4000 * (q / 0x4000) + q % 0x4000;
    assert 4 * q == 0x1_0000 * (q / 0x4000) + 4 * (q % 0x4000);
  }

  /** The first display function of a log, if any. */
  function FirstDisplay(cfg: Config, log: seq<Fn>): Option<Fn>
  {
    if log == [] then None
    else
      var pre := FirstDisplay(cfg, log[..|log| - 1]);
      if pre.Some? then pre else if Is(cfg, Display, log[|log| - 1]) then Some(log[|log| - 1]) else None
  }

  /** The identifiers kept are those of the first display function: vendor in bytes 0 and 1, device in bytes 2 and 3. */
  lemma {:induction false} GpuOfLog(cfg: Config, log: seq<Fn>)
    ensures var p := ClassifiedAll(cfg, ZERO, log);
            match FirstDisplay(cfg, log)
            case None => p.gpuClass == GPU_NONE && p.gpuVendor == 0 && p.gpuDevice == 0
            case Some(x) =>
              && p.gpuClass != GPU_NONE
              && p.gpuVendor == ConfigByte(cfg, x, 0) as int + 0x100 * ConfigByte(cfg, x, 1) as int
              && p.gpuDevice == ConfigByte(cfg, x, 2) as int + 0x100 * ConfigByte(cfg, x, 3) as int
  {
    hide ConfigByte, Is, Classified, LowHalf, HighHalf;
    if log != [] {
      var pre, x := log[..|log| - 1], log[|log| - 1];
      GpuOfLog(cfg, pre);
      GpuStep(cfg, ClassifiedAll(cfg, ZERO, pre), x);
      GpuBytes(cfg, x);
    }
  }

  lemma GpuStep(cfg: Config, p: Profile, x: Fn)
    ensures var q, id := Classified(cfg, p, x), cfg(x.bus, x.dev, x.fn, 0);
            if !Is(cfg, Display, x) then q.gpuClass == p.gpuClass && q.gpuVendor == p.gpuVendor && q.gpuDevice == p.gpuDevice
            else if p.gpuClass == GPU_NONE then q.gpuClass != GPU_NONE && q.gpuVendor == LowHalf(id) && q.gpuDevice == HighHalf(id)
            else q.gpuClass != GPU_NONE && q.gpuVendor == p.gpuVendor && q.gpuDevice == p.gpuDevice
  {
    hide WithDisplay, WithStorage, WithConnectivity, Is, LowHalf, HighHalf, Bump16;
    var p1 := p.(devCount := Bump16(p.devCount));
    var p2 := WithDisplay(cfg, p1, x);
    OthersKeepGpu(cfg, p2, x);
    OthersKeepGpu(cfg, WithStorage(cfg, p2, x), x);
    DisplaySetsGpu(cfg, p1, x);
  }

  lemma OthersKeepGpu(cfg: Config, p: Profile, x: Fn)
    ensures var q, r := WithStorage(cfg, p, x), WithConnectivity(cfg, p, x);
            && q.gpuClass == r.gpuClass == p.gpuClass && q.gpuVendor == r.gpuVendor == p.gpuVendor
            && q.gpuDevice == r.gpuDevice == p.gpuDevice
  {
    hide IsAhci, IsNvme, IsUsb, IsXhci, Class, Abar, AtaBase, Bump8;
  }

  lemma DisplaySetsGpu(cfg: Config, p: Profile, x: Fn)
    ensures var q, id := WithDisplay(cfg, p, x), cfg(x.bus, x.dev, x.fn, 0);
            if !Is(cfg, Display, x) then q == p
            else if p.gpuClass == GPU_NONE then q.gpuClass != GPU_NONE && q.gpuVendor == LowHalf(id) && q.gpuDevice == HighHalf(id)
            else q.gpuClass != GPU_NONE && q.gpuVendor == p.gpuVendor && q.gpuDevice == p.gpuDevice
  {
    hide IsDisplay, LowHalf, HighHalf;
  }

  lemma GpuBytes(cfg: Config, x: Fn)
    ensures var id := cfg(x.bus, x.dev, x.fn, 0);
            && LowHalf(id) == ConfigByte(cfg, x, 0) as int + 0x100 * ConfigByte(cfg, x, 1) as int
            && HighHalf(id) == ConfigByte(cfg, x, 2) as int + 0x100 * ConfigByte(cfg, x, 3) as int
  {
    hide ToLE;
    LEDigits(cfg(x.bus, x.dev, x.fn, 0));
    HalfBytes(cfg(x.bus, x.dev, x.fn, 0));
  }

  ghost function Number(cfg: Config, s: set<Fn>, k: Kind): nat { |set x | x in s && Is(cfg, k, x)| }

  ghost predicate AnyOf(cfg: Config, s: set<Fn>, k: Kind) { exists x :: x in s && Is(cfg, k, x) }

  ghost predicate Counts(cfg: Config, p: Profile, s: set<Fn>)
  {
    var displays := Number(cfg, s, Display);
    && p.gpuClass == (if displays == 0 then 0 else if displays == 1 then 1 else 3)
    && p.storageCount == Number(cfg, s, Storage) % 256
    && p.devCount == |s| % 0x1_0000
  }

  ghost predicate Flags(cfg: Config, p: Profile, s: set<Fn>)
  {
    && (p.hasAhci <==> AnyOf(cfg, s, Ahci))
    && (p.hasNvme <==> AnyOf(cfg, s, Nvme))
    && (p.hasEthernet <==> AnyOf(cfg, s, Ethernet))
    && (p.hasWireless <==> AnyOf(cfg, s, Wireless))
    && (p.hasUsb2 <==> AnyOf(cfg, s, Ehci))
    && (p.hasUsb3 <==> AnyOf(cfg, s, Xhci))
    && (p.hasAudio <==> AnyOf(cfg, s, Audio))
  }

  ghost predicate Bases(cfg: Config, p: Profile, s: set<Fn>)
  {
    && (p.ahciBar5 != 0 <==> AnyOf(cfg, s, BarSet))
    && (p.ahciBar5 != 0 ==> AnyOf(cfg, s, BarIs(p.ahciBar5)))
    && p.ataIobase == 0x1F0
  }

  /** The profile as a comprehension over the set of functions found. */
  ghost predicate Inventory(cfg: Config, p: Profile, s: set<Fn>)
  {
    Counts(cfg, p, s) && Flags(cfg, p, s) && Bases(cfg, p, s)
  }

  lemma NumberAdd(cfg: Config, s: set<Fn>, x: Fn, k: Kind)
    requires x !in s
    ensures Number(cfg, s + {x}, k) == Number(cfg, s, k) + (if Is(cfg, k, x) then 1 else 0)
  {
    hide Is;
    var old', new' := set y | y in s && Is(cfg, k, y), set y | y in s + {x} && Is(cfg, k, y);
    if Is(cfg, k, x) {
      assert new' == old' + {x};
    } else {
      assert new' == old';
    }
  }

  lemma AnyAdd(cfg: Config, s: set<Fn>, x: Fn, k: Kind)
    ensures AnyOf(cfg, s + {x}, k) <==> AnyOf(cfg, s, k) || Is(cfg, k, x)
  {
    hide Is;
    if Is(cfg, k, x) { assert x in s + {x}; }
    if AnyOf(cfg, s, k) {
      var y :| y in s && Is(cfg, k, y);
      assert y in s + {x};
    }
  }

  lemma CountsStep(cfg: Config, p: Profile, s: set<Fn>, x: Fn)
    requires Counts(cfg, p, s) && x !in s
    ensures Counts(cfg, Classified(cfg, p, x), s + {x})
  {
    hide Number, Is, Classified, Bump8, Bump16, Abar;
    ClassifiedFields(cfg, p, x);
    NumberAdd(cfg, s, x, Display);
    NumberAdd(cfg, s, x, Storage);
    BumpIs(Number(cfg, s, Storage), |s|);
  }

  lemma BumpIs(storage: nat, devices: nat)
    ensures Bump8(storage % 256) == (storage + 1) % 256 && Bump16(devices % 0x1_0000) == (devices + 1) % 0x1_0000
  {
  }

  /** The fields that the display part leaves alone, and those the other two parts set. */
  lemma DisplayFields(cfg: Config, p: Profile, x: Fn)
    ensures var q := WithDisplay(cfg, p, x);
            && q.hasAhci == p.hasAhci && q.hasNvme == p.hasNvme && q.hasEthernet == p.hasEthernet && q.hasWireless == p.hasWireless
            && q.hasUsb2 == p.hasUsb2 && q.hasUsb3 == p.hasUsb3 && q.hasAudio == p.hasAudio
            && q.ahciBar5 == p.ahciBar5 && q.ataIobase == p.ataIobase
            && q.gpuClass == (if !Is(cfg, Display, x) then p.gpuClass else if p.gpuClass == GPU_NONE then GPU_INTEGRATED else GPU_MULTI)
            && q.storageCount == p.storageCount && q.devCount == p.devCount
  {
    hide IsDisplay, WithGpu;
    GpuFields(p, cfg(x.bus, x.dev, x.fn, 0));
  }

  lemma GpuFields(p: Profile, id: u32)
    ensures var q := WithGpu(p, id);
            && q.hasAhci == p.hasAhci && q.hasNvme == p.hasNvme && q.hasEthernet == p.hasEthernet && q.hasWireless == p.hasWireless
            && q.hasUsb2 == p.hasUsb2 && q.hasUsb3 == p.hasUsb3 && q.hasAudio == p.hasAudio
            && q.ahciBar5 == p.ahciBar5 && q.ataIobase == p.ataIobase
            && q.gpuClass == (if p.gpuClass == GPU_NONE then GPU_INTEGRATED else GPU_MULTI)
            && q.storageCount == p.storageCount && q.devCount == p.devCount
  {
    hide LowHalf, HighHalf;
  }

  lemma StorageFields(cfg: Config, p: Profile, x: Fn)
    ensures var q := WithStorage(cfg, p, x);
            && q.hasAhci == (p.hasAhci || Is(cfg, Ahci, x)) && q.hasNvme == (p.hasNvme || Is(cfg, Nvme, x))
            && q.hasEthernet == p.hasEthernet && q.hasWireless == p.hasWireless
            && q.hasUsb2 == p.hasUsb2 && q.hasUsb3 == p.hasUsb3 && q.hasAudio == p.hasAudio
            && q.ahciBar5 == (if Is(cfg, Ahci, x) && p.ahciBar5 == 0 then Abar(cfg, x) else p.ahciBar5)
            && (p.ataIobase == 0x1F0 ==> q.ataIobase == 0x1F0)
            && q.gpuClass == p.gpuClass && q.devCount == p.devCount
            && q.storageCount == (if Is(cfg, Storage, x) then Bump8(p.storageCount) else p.storageCount)
  {
    hide IsAhci, IsNvme, IsAta, Abar, Bump8;
  }

  lemma ConnectivityFields(cfg: Config, p: Profile, x: Fn)
    ensures var q := WithConnectivity(cfg, p, x);
            && q.hasAhci == p.hasAhci && q.hasNvme == p.hasNvme
            && q.hasEthernet == (p.hasEthernet || Is(cfg, Ethernet, x)) && q.hasWireless == (p.hasWireless || Is(cfg, Wireless, x))
            && q.hasUsb2 == (p.hasUsb2 || Is(cfg, Ehci, x)) && q.hasUsb3 == (p.hasUsb3 || Is(cfg, Xhci, x))
            && q.hasAudio == (p.hasAudio || Is(cfg, Audio, x))
            && q.ahciBar5 == p.ahciBar5 && q.ataIobase == p.ataIobase
            && q.gpuClass == p.gpuClass && q.storageCount == p.storageCount && q.devCount == p.devCount
  {
    hide IsUsb, IsXhci, Class;
  }

  lemma ClassifiedFields(cfg: Config, p: Profile, x: Fn)
    ensures var q := Classified(cfg, p, x);
            && q.hasAhci == (p.hasAhci || Is(cfg, Ahci, x)) && q.hasNvme == (p.hasNvme || Is(cfg, Nvme, x))
            && q.hasEthernet == (p.hasEthernet || Is(cfg, Ethernet, x)) && q.hasWireless == (p.hasWireless || Is(cfg, Wireless, x))
            && q.hasUsb2 == (p.hasUsb2 || Is(cfg, Ehci, x)) && q.hasUsb3 == (p.hasUsb3 || Is(cfg, Xhci, x))
            && q.hasAudio == (p.hasAudio || Is(cfg, Audio, x))
            && q.ahciBar5 == (if Is(cfg, Ahci, x) && p.ahciBar5 == 0 then Abar(cfg, x) else p.ahciBar5)
            && (p.ataIobase == 0x1F0 ==> q.ataIobase == 0x1F0)
            && q.gpuClass == (if !Is(cfg, Display, x) then p.gpuClass else if p.gpuClass == GPU_NONE then GPU_INTEGRATED else GPU_MULTI)
            && q.storageCount == (if Is(cfg, Storage, x) then Bump8(p.storageCount) else p.storageCount)
            && q.devCount == Bump16(p.devCount)
  {
    hide Is, WithDisplay, WithStorage, WithConnectivity, Abar, Bump8, Bump16;
    var p1 := p.(devCount := Bump16(p.devCount));
    DisplayFields(cfg, p1, x);
    var p2 := WithDisplay(cfg, p1, x);
    StorageFields(cfg, p2, x);
    ConnectivityFields(cfg, WithStorage(cfg, p2, x), x);
  }

  lemma FlagsStep(cfg: Config, p: Profile, s: set<Fn>, x: Fn)
    requires Flags(cfg, p, s)
    ensures Flags(cfg, Classified(cfg, p, x), s + {x})
  {
    hide AnyOf, Is, Classified;
    ClassifiedFields(cfg, p, x);
    AnyAdd(cfg, s, x, Ahci);
    AnyAdd(cfg, s, x, Nvme);
    AnyAdd(cfg, s, x, Ethernet);
    AnyAdd(cfg, s, x, Wireless);
    AnyAdd(cfg, s, x, Ehci);
    AnyAdd(cfg, s, x, Xhci);
    AnyAdd(cfg, s, x, Audio);
  }

  lemma BarKinds(cfg: Config, x: Fn)
    ensures Is(cfg, BarSet, x) == (Is(cfg, Ahci, x) && Abar(cfg, x) != 0)
    ensures Is(cfg, BarIs(Abar(cfg, x)), x) == Is(cfg, Ahci, x)
  {
  }

  lemma BasesStep(cfg: Config, p: Profile, s: set<Fn>, x: Fn)
    requires Bases(cfg, p, s)
    ensures Bases(cfg, Classified(cfg, p, x), s + {x})
  {
    hide AnyOf, Is, Classified, Abar;
    ClassifiedFields(cfg, p, x);
    BarKinds(cfg, x);
    AnyAdd(cfg, s, x, BarSet);
    AnyAdd(cfg, s, x, BarIs(p.ahciBar5));
    AnyAdd(cfg, s, x, BarIs(Abar(cfg, x)));
  }

  lemma EmptyInventory(cfg: Config)
    ensures Inventory(cfg, ZERO, {})
  {
    hide Is;
    forall k: Kind ensures Number(cfg, {}, k) == 0 {
      assert (set x: Fn | x in {} && Is(cfg, k, x)) == {};
    }
  }

  ghost function Members(log: seq<Fn>): set<Fn> { set x | x in log }

  lemma MembersAppend(log: seq<Fn>, x: Fn)
    ensures Members(log + [x]) == Members(log) + {x}
  {
  }

  /** Any log without repetitions gives the inventory of the set of its functions. */
  lemma {:induction false} InventoryOfLog(cfg: Config, log: seq<Fn>)
    requires NoDup(log)
    ensures Inventory(cfg, ClassifiedAll(cfg, ZERO, log), Members(log))
  {
    if log == [] {
      EmptyInventory(cfg);
      assert Members(log) == {};
    } else {
      var pre, x := log[..|log| - 1], log[|log| - 1];
      var p := ClassifiedAll(cfg, ZERO, pre);
      InventoryOfLog(cfg, pre);
      assert log == pre + [x];
      hide Counts, Flags, Bases, Classified;
      assert ClassifiedAll(cfg, ZERO, log) == Classified(cfg, p, x);
      hide ClassifiedAll;
      MembersAppend(pre, x);
      CountsStep(cfg, p, Members(pre), x);
      FlagsStep(cfg, p, Members(pre), x);
      BasesStep(cfg, p, Members(pre), x);
    }
  }

  // ---- The scanner ----------------------------------------------------------

  predicate BitSet(v: bv8, bit: nat)
    requires bit < 8
  {
    v & (1 << bit) != 0
  }

  lemma SetBit(v: bv8, bit: nat, other: nat)
    requires bit < 8 && other < 8
    ensures BitSet(v | (1 << bit), other) <==> other == bit || BitSet(v, other)
  {
  }

  lemma SameBit(b: nat, c: nat)
    ensures b / 8 == c / 8 && b % 8 == c % 8 ==> b == c
  {
  }

  /** A stretch of the scan between two states, with the profile it filled in. */
  ghost predicate Did(cfg: Config, bus: nat, own: set<Fn>, v0: set<nat>, log0: seq<Fn>, p0: Profile, v1: set<nat>, log1: seq<Fn>, p1: Profile)
  {
    log0 <= log1 && Covers(cfg, bus, own, v0, v1, log1[|log0|..]) && p1 == ClassifiedAll(cfg, p0, log1[|log0|..])
  }

  /** The buses still to be seen: what the recursion runs out of. */
  ghost function Left(v: set<nat>): set<nat> { set b: nat | b < 256 && b !in v }

  lemma FewerLeft(v: set<nat>, w: set<nat>, bus: nat)
    requires v <= w && bus < 256 && bus in w && bus !in v
    ensures Left(w) < Left(v)
  {
    assert bus in Left(v) && bus !in Left(w);
  }

  lemma NoMoreLeft(v: set<nat>, w: set<nat>)
    requires v <= w
    ensures Left(w) == Left(v) || Left(w) < Left(v)
  {
  }

  /** The scan's globals: the bitmap and the profile it fills; the log is specification only. */
  class Scanner {
    const cfg: Config
    const visited: array<bv8>
    var mcp: Profile
    ghost var log: seq<Fn>

    predicate IsVisited(bus: nat)
      requires bus < 256 && visited.Length == 32
      reads visited
    {
      BitSet(visited[bus / 8], bus % 8)
    }

    ghost function Visited(): set<nat>
      requires visited.Length == 32
      reads visited
    {
      set b: nat | b < 256 && IsVisited(b)
    }

    constructor (cfg: Config)
      ensures this.cfg == cfg && fresh(visited) && visited.Length == 32
    {
      this.cfg := cfg;
      visited := new bv8[32];
    }

    /** Sets the bit of a bus; false when it was set already. */
    method MarkBus(bus: nat) returns (unseen: bool)
      requires bus < 256 && visited.Length == 32
      modifies visited
      ensures unseen == (bus !in old(Visited()))
      ensures Visited() == old(Visited()) + {bus}
    {
      var byt, bit := bus / 8, bus % 8;
      ghost var was := Visited();
      if visited[byt] & (1 << bit) != 0 {
        assert IsVisited(bus);
        return false;
      }
      assert !IsVisited(bus);
      ghost var v := visited[byt];
      visited[byt] := visited[byt] | (1 << bit);
      forall b: nat | b < 256 ensures IsVisited(b) <==> b == bus || b in was {
        SetBit(v, bit, b % 8);
        SameBit(b, bus);
      }
      return true;
    }

    method ClassifyDisplay(x: Fn)
      modifies this`mcp
      ensures mcp == WithDisplay(cfg, old(mcp), x)
    {
      hide Class;
      var id := cfg(x.bus, x.dev, x.fn, 0x00);
      if IsDisplay(cfg, x) {
        if mcp.gpuClass == GPU_NONE {
          mcp := mcp.(gpuClass := GPU_INTEGRATED);
          mcp := mcp.(gpuVendor := LowHalf(id), gpuDevice := HighHalf(id));
        } else {
          mcp := mcp.(gpuClass := GPU_MULTI);
        }
      }
    }

    method ClassifyStorage(x: Fn)
      modifies this`mcp
      ensures mcp == WithStorage(cfg, old(mcp), x)
    {
      hide Class, ProgIf, Abar;
      if Class(cfg, x) == 0x0106 {
        mcp := mcp.(hasAhci := true, storageCount := Bump8(mcp.storageCount));
        if mcp.ahciBar5 == 0 {
          mcp := mcp.(ahciBar5 := Abar(cfg, x));
        }
      }
      if Class(cfg, x) == 0x0101 && mcp.ataIobase == 0 {
        if ProgIf(cfg, x) % 2 == 0 {
          mcp := mcp.(ataIobase := 0x1F0);
        } else {
          var bar0 := cfg(x.bus, x.dev, x.fn, 0x10);
          if bar0 % 2 == 1 { mcp := mcp.(ataIobase := bar0 / 4 * 4 % 0x1_0000); }
        }
      }
      if Class(cfg, x) == 0x0108 {
        mcp := mcp.(hasNvme := true, storageCount := Bump8(mcp.storageCount));
      }
    }

    method ClassifyConnectivity(x: Fn)
      modifies this`mcp
      ensures mcp == WithConnectivity(cfg, old(mcp), x)
    {
      hide Class, ProgIf;
      if Class(cfg, x) == 0x0200 { mcp := mcp.(hasEthernet := true); }
      if Class(cfg, x) == 0x0280 { mcp := mcp.(hasWireless := true); }
      if Class(cfg, x) == 0x0C03 {
        if ProgIf(cfg, x) == 0x30 { mcp := mcp.(hasUsb3 := true); } else { mcp := mcp.(hasUsb2 := true); }
      }
      if Class(cfg, x) == 0x0403 { mcp := mcp.(hasAudio := true); }
    }

    /** Records one function in the profile. */
    method Classify(x: Fn)
      requires Exists(cfg, x)
      modifies this
      ensures mcp == Classified(cfg, old(mcp), x)
      ensures log == old(log) + [x]
    {
      log := log + [x];
      var id := cfg(x.bus, x.dev, x.fn, 0x00);
      if !Valid(id) {
        return;
      }
      hide Exists, WithDisplay, WithStorage, WithConnectivity;
      mcp := mcp.(devCount := Bump16(mcp.devCount));
      ClassifyDisplay(x);
      ClassifyStorage(x);
      ClassifyConnectivity(x);
    }

    /** What a call of the scan has done since the state (v0, log0, p0). */
    ghost predicate Since(bus: nat, own: set<Fn>, v0: set<nat>, log0: seq<Fn>, p0: Profile)
      requires visited.Length == 32
      reads this, visited
    {
      Did(cfg, bus, own, v0, log0, p0, Visited(), log, mcp)
    }

    /** Classifies one function and scans the bus behind it when it is a bridge. */
    method ScanFunction(x: Fn)
      requires visited.Length == 32 && Exists(cfg, x) && x.bus < 256 && 0 in Visited() && x.bus in Visited()
      modifies this, visited
      ensures Since(x.bus, {x}, old(Visited()), old(log), old(mcp))
      ensures old(Visited()) <= Visited()
      decreases Left(Visited()), 1
    {
      hide Visited, Left, IsVisited, Classified, Exists, IsBridge, Behind;
      ghost var v0, p0 := Visited(), mcp;
      Classify(x);
      ghost var log1, p1 := log, mcp;
      if IsBridge(cfg, x) {
        var secondary := Behind(cfg, x);
        if secondary != 0 && secondary != x.bus {
          ScanBus(secondary);
        } else {
          CoversNothing(cfg, secondary, v0);
        }
      }
      ghost var more := log[|log1|..];
      CoversFunction(cfg, x, v0, Visited(), more);
      assert log[|old(log)|..] == [x] + more;
      ClassifiedConcat(cfg, p0, [x], more);
      assert ClassifiedAll(cfg, p0, [x]) == p1 by { assert [x][..0] == []; }
    }

    /** Function 0, and the other seven of a multifunction device. */
    method ScanDevice(bus: nat, dev: nat)
      requires visited.Length == 32 && bus < 256 && dev < 32 && 0 in Visited() && bus in Visited()
      modifies this, visited
      ensures Since(bus, OfDevice(cfg, bus, dev, 8), old(Visited()), old(log), old(mcp))
      ensures old(Visited()) <= Visited()
      decreases Left(Visited()), 3
    {
      hide Visited, Left, IsVisited, Covers, ClassifiedAll;
      ghost var v0, log0, p0 := Visited(), log, mcp;
      DeviceFunctions(cfg, bus, dev);
      if !Valid(cfg(bus, dev, 0, 0)) {
        SinceNothing(bus);
        return;
      }
      assert Exists(cfg, Fn(bus, dev, 0));
      hide Since, OfDevice, IsBridge;
      ScanFunction(Fn(bus, dev, 0));
      if HeaderType(cfg, bus, dev, 0) >= 0x80 {
        var fn := 1;
        while fn < 8
          invariant 1 <= fn <= 8 && v0 <= Visited()
          invariant Since(bus, OfDevice(cfg, bus, dev, fn), v0, log0, p0)
        {
          OneMoreFunction(cfg, bus, dev, fn);
          if Valid(cfg(bus, dev, fn, 0)) {
            NoMoreLeft(v0, Visited());
            ScanNextFunction(bus, dev, fn, v0, log0, p0);
          }
          fn := fn + 1;
        }
      }
    }

    method ScanNextFunction(bus: nat, dev: nat, fn: nat, ghost v0: set<nat>, ghost log0: seq<Fn>, ghost p0: Profile)
      requires visited.Length == 32 && bus < 256 && Exists(cfg, Fn(bus, dev, fn))
      requires 0 in v0 && bus in v0 && v0 <= Visited() && Fn(bus, dev, fn) !in OfDevice(cfg, bus, dev, fn)
      requires Since(bus, OfDevice(cfg, bus, dev, fn), v0, log0, p0)
      modifies this, visited
      ensures v0 <= Visited() && Since(bus, OfDevice(cfg, bus, dev, fn) + {Fn(bus, dev, fn)}, v0, log0, p0)
      decreases Left(Visited()), 2
    {
      hide OfDevice, IsBridge, Exists, Covers, ClassifiedAll, Visited, Left, IsVisited;
      ghost var v1, log1, p1 := Visited(), log, mcp;
      ScanFunction(Fn(bus, dev, fn));
      SinceConcat(bus, OfDevice(cfg, bus, dev, fn), {Fn(bus, dev, fn)}, v0, log0, p0, v1, log1, p1);
    }

    /** Marks the bus and scans its 32 devices, unless it was marked before. */
    method ScanBus(bus: nat)
      requires visited.Length == 32 && bus < 256 && (bus == 0 || 0 in Visited())
      modifies this, visited
      ensures Since(bus, {}, old(Visited()), old(log), old(mcp))
      ensures bus in Visited() && old(Visited()) <= Visited()
      decreases Left(Visited()), 0
    {
      hide Visited, Left, IsVisited;
      ghost var v, log0, p0 := Visited(), log, mcp;
      var unseen := MarkBus(bus);
      if !unseen {
        assert Visited() == v;
        SinceNothing(bus);
        return;
      }
      ghost var v0 := Visited();
      SinceNothing(bus);
      NoDevices(cfg, bus);
      hide OfDevice, OfBus, Covers, ClassifiedAll;
      var dev := 0;
      while dev < 32
        invariant 0 <= dev <= 32 && v0 <= Visited()
        invariant Since(bus, OfBus(cfg, bus, dev), v0, log0, p0)
      {
        ghost var v1, log1, p1 := Visited(), log, mcp;
        FewerLeft(v, Visited(), bus);
        ScanDevice(bus, dev);
        OneMoreDevice(cfg, bus, dev);
        SinceConcat(bus, OfBus(cfg, bus, dev), OfDevice(cfg, bus, dev, 8), v0, log0, p0, v1, log1, p1);
        dev := dev + 1;
      }
      AllDevices(cfg, bus);
      CoversBus(cfg, bus, OfBus(cfg, bus, 32), v, Visited(), log[|log0|..]);
    }

    /** Clears the bitmap and the scratch fields. */
    method Reset()
      requires visited.Length == 32
      modifies this`mcp, visited
      ensures Visited() == {}
      ensures mcp == old(mcp).(ataIobase := 0x1F0, ahciBar5 := 0, devCount := 0)
    {
      for i := 0 to 32
        invariant forall j :: 0 <= j < i ==> visited[j] == 0
        modifies visited
      {
        visited[i] := 0;
      }
      mcp := mcp.(ahciBar5 := 0, devCount := 0, ataIobase := 0x1F0);
      forall b: nat | b < 256 ensures !IsVisited(b) { NoBits(b % 8); }
    }

    /** From a zeroed profile: exactly the reachable buses, each function once, and its inventory. */
    method ScanPci()
      requires visited.Length == 32
      requires mcp.(ataIobase := 0x1F0, ahciBar5 := 0, devCount := 0) == ZERO
      modifies this, visited
      ensures forall b: nat :: b in Visited() <==> Reaches(cfg, 0, b)
      ensures old(log) <= log && NoDup(log[|old(log)|..])
      ensures forall x: Fn :: x in log[|old(log)|..] <==> Reaches(cfg, 0, x.bus) && Exists(cfg, x)
      ensures Inventory(cfg, mcp, Members(log[|old(log)|..]))
    {
      ghost var log0 := log;
      Reset();
      ScanBus(0);
      hide Inventory, Exists, Visited, Members, Reaches;
      WholeScan(cfg, Visited(), log[|log0|..]);
    }

    lemma SinceNothing(bus: nat)
      requires visited.Length == 32
      ensures Since(bus, {}, Visited(), log, mcp)
    {
      CoversNothing(cfg, bus, Visited());
    }

    lemma SinceConcat(bus: nat, own1: set<Fn>, own2: set<Fn>, v0: set<nat>, log0: seq<Fn>, p0: Profile, v1: set<nat>, log1: seq<Fn>, p1: Profile)
      requires visited.Length == 32 && bus in v0 && own1 !! own2
      requires Did(cfg, bus, own1, v0, log0, p0, v1, log1, p1)
      requires Since(bus, own2, v1, log1, p1)
      ensures Since(bus, own1 + own2, v0, log0, p0)
    {
      hide Covers, ClassifiedAll, Visited, IsVisited;
      var a, b := log1[|log0|..], log[|log1|..];
      CoversConcat(cfg, bus, own1, own2, v0, v1, Visited(), a, b);
      ClassifiedConcat(cfg, p0, a, b);
      assert log[|log0|..] == a + b;
    }
  }

  /** A scan of bus 0 from nothing visited is complete and free of repetitions. */
  lemma WholeScan(cfg: Config, v: set<nat>, log: seq<Fn>)
    requires Covers(cfg, 0, {}, {}, v, log) && 0 in v
    ensures forall b: nat :: b in v <==> Reaches(cfg, 0, b)
    ensures NoDup(log) && forall x: Fn :: x in log <==> Reaches(cfg, 0, x.bus) && Exists(cfg, x)
    ensures Inventory(cfg, ClassifiedAll(cfg, ZERO, log), Members(log))
  {
    hide Inventory, Members;
    forall b: nat | Reaches(cfg, 0, b) ensures b in v {
      var p :| IsPath(cfg, p, 0, b);
      ReachStaysIn(cfg, p, 0, b, v);
    }
    InventoryOfLog(cfg, log);
  }

  lemma DeviceFunctions(cfg: Config, bus: nat, dev: nat)
    requires dev < 32
    ensures !Valid(cfg(bus, dev, 0, 0)) ==> OfDevice(cfg, bus, dev, 8) == {}
    ensures Valid(cfg(bus, dev, 0, 0)) ==> OfDevice(cfg, bus, dev, 1) == {Fn(bus, dev, 0)}
    ensures HeaderType(cfg, bus, dev, 0) < 0x80 ==> OfDevice(cfg, bus, dev, 8) == OfDevice(cfg, bus, dev, 1)
  {
  }

  lemma OneMoreFunction(cfg: Config, bus: nat, dev: nat, fn: nat)
    requires 1 <= fn < 8 && dev < 32 && Valid(cfg(bus, dev, 0, 0)) && HeaderType(cfg, bus, dev, 0) >= 0x80
    ensures Exists(cfg, Fn(bus, dev, fn)) <==> Valid(cfg(bus, dev, fn, 0))
    ensures Fn(bus, dev, fn) !in OfDevice(cfg, bus, dev, fn)
    ensures Exists(cfg, Fn(bus, dev, fn)) ==> OfDevice(cfg, bus, dev, fn + 1) == OfDevice(cfg, bus, dev, fn) + {Fn(bus, dev, fn)}
    ensures !Exists(cfg, Fn(bus, dev, fn)) ==> OfDevice(cfg, bus, dev, fn + 1) == OfDevice(cfg, bus, dev, fn)
  {
  }

  lemma NoDevices(cfg: Config, bus: nat)
    ensures OfBus(cfg, bus, 0) == {}
  {
  }

  lemma AllDevices(cfg: Config, bus: nat)
    ensures forall x: Fn :: x in OfBus(cfg, bus, 32) <==> x.bus == bus && Exists(cfg, x)
  {
    forall x: Fn | x.bus == bus ensures x in OfBus(cfg, bus, 32) <==> Exists(cfg, x) {
      assert x == Fn(bus, x.dev, x.fn);
    }
  }

  lemma OneMoreDevice(cfg: Config, bus: nat, dev: nat)
    requires dev < 32
    ensures OfBus(cfg, bus, dev + 1) == OfBus(cfg, bus, dev) + OfDevice(cfg, bus, dev, 8)
    ensures OfBus(cfg, bus, dev) !! OfDevice(cfg, bus, dev, 8)
  {
  }

  lemma NoBits(bit: nat)
    requires bit < 8
    ensures !BitSet(0, bit)
  {
  }

  /** The functions of a device below number n, and of a bus below device n. */
  ghost function OfDevice(cfg: Config, bus: nat, dev: nat, n: nat): set<Fn>
  {
    set fn: nat | fn < 8 && fn < n && Exists(cfg, Fn(bus, dev, fn)) :: Fn(bus, dev, fn)
  }

  ghost function OfBus(cfg: Config, bus: nat, n: nat): set<Fn>
  {
    set dev: nat, fn: nat | dev < 32 && dev < n && fn < 8 && Exists(cfg, Fn(bus, dev, fn)) :: Fn(bus, dev, fn)
  }
}
