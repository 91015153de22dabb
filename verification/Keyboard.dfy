/**
 The keyboard queue: an interrupt handler that puts characters in, and a foreground reader that
 takes them out and edits a line. Interrupts may come between any two steps of the reader.
 */
module Keyboard {
  import opened Bytes

  const SIZE: nat := 64

  // ---- Scan codes -----------------------------------------------------------

  function Ascii(s: string): (r: seq<byte>)
    ensures |r| == |s|
  {
    seq(|s|, i requires 0 <= i < |s| => s[i] as int % 256)
  }

  /** A map of make codes 0x00-0x58 from its four rows; 0 is no character. */
  function Keys(digits: seq<byte>, top: seq<byte>, home: seq<byte>, bottom: seq<byte>): (m: seq<byte>)
    requires |digits| == 12 && |top| == 12 && |home| == 12 && |bottom| == 11
    ensures |m| == 89
  {
    [0, 0x1B] + digits + [8, 9] + top + [10, 0] + home + [0] + bottom + [0] + Ascii("*") + [0] + Ascii(" ") + [0]
    + Zeros(12) + Ascii("789-456+1230.") + Zeros(5)
  }

  /** The characters without and with shift. */
  function MapLo(): (m: seq<byte>)
    ensures |m| == 89
  {
    Keys(Ascii("1234567890-="), Ascii("qwertyuiop[]"), Ascii("asdfghjkl;'`"), Ascii("\\zxcvbnm,./"))
  }

  function MapHi(): (m: seq<byte>)
    ensures |m| == 89
  {
    Keys(Ascii("!@#$%^&*()_+"), Ascii("QWERTYUIOP{}"), Ascii("ASDFGHJKL:\"~"), Ascii("|ZXCVBNM<>?"))
  }

  function ShiftAfter(shift: bool, sc: byte): bool
  {
    if sc == 0x2A || sc == 0x36 then true else if sc == 0xAA || sc == 0xB6 then false else shift
  }

  /** The character a scan code stands for, or 0. */
  function CharOf(shift: bool, sc: byte): byte
  {
    if sc == 0x2A || sc == 0x36 || sc >= 89 then 0 else if shift then MapHi()[sc] else MapLo()[sc]
  }

  /** Where the rows of a map stand. */
  lemma KeysAt(digits: seq<byte>, top: seq<byte>, home: seq<byte>, bottom: seq<byte>, sc: nat)
    requires |digits| == 12 && |top| == 12 && |home| == 12 && |bottom| == 11 && sc < 89
    ensures var m := Keys(digits, top, home, bottom);
            m[sc] == if 2 <= sc < 14 then digits[sc - 2] else if 16 <= sc < 28 then top[sc - 16] else if 30 <= sc < 42 then home[sc - 30]
                     else if 43 <= sc < 54 then bottom[sc - 43] else if 71 <= sc < 84 then Ascii("789-456+1230.")[sc - 71]
                     else if sc == 1 then 0x1B else if sc == 14 then 8 else if sc == 15 then 9 else if sc == 28 then 10
                     else if sc == 55 then 0x2A else if sc == 57 then 0x20 else 0
  {
    hide Ascii;
    assert Ascii("*") == [0x2A] && Ascii(" ") == [0x20] by { OneChars(); }
    var a := [0, 0x1B] + digits + [8, 9] + top;
    var b := [10, 0] + home + [0] + bottom + [0, 0x2A, 0, 0x20, 0];
    var c := Zeros(12) + Ascii("789-456+1230.") + Zeros(5);
    assert Keys(digits, top, home, bottom) == a + b + c;
  }

  lemma OneChars()
    ensures Ascii("*") == [0x2A] && Ascii(" ") == [0x20]
  {
  }

  lemma LowAt(sc: nat)
    requires sc < 89
    ensures var m := MapLo();
            m[sc] == if 2 <= sc < 14 then Ascii("1234567890-=")[sc - 2] else if 16 <= sc < 28 then Ascii("qwertyuiop[]")[sc - 16]
                     else if 30 <= sc < 42 then Ascii("asdfghjkl;'`")[sc - 30] else if 43 <= sc < 54 then Ascii("\\zxcvbnm,./")[sc - 43]
                     else if 71 <= sc < 84 then Ascii("789-456+1230.")[sc - 71]
                     else if sc == 1 then 0x1B else if sc == 14 then 8 else if sc == 15 then 9 else if sc == 28 then 10
                     else if sc == 55 then 0x2A else if sc == 57 then 0x20 else 0
  {
    hide Ascii, Keys;
    KeysAt(Ascii("1234567890-="), Ascii("qwertyuiop[]"), Ascii("asdfghjkl;'`"), Ascii("\\zxcvbnm,./"), sc);
  }

  lemma HighAt(sc: nat)
    requires sc < 89
    ensures var m := MapHi();
            m[sc] == if 2 <= sc < 14 then Ascii("!@#$%^&*()_+")[sc - 2] else if 16 <= sc < 28 then Ascii("QWERTYUIOP{}")[sc - 16]
                     else if 30 <= sc < 42 then Ascii("ASDFGHJKL:\"~")[sc - 30] else if 43 <= sc < 54 then Ascii("|ZXCVBNM<>?")[sc - 43]
                     else if 71 <= sc < 84 then Ascii("789-456+1230.")[sc - 71]
                     else if sc == 1 then 0x1B else if sc == 14 then 8 else if sc == 15 then 9 else if sc == 28 then 10
                     else if sc == 55 then 0x2A else if sc == 57 then 0x20 else 0
  {
    hide Ascii, Keys;
    KeysAt(Ascii("!@#$%^&*()_+"), Ascii("QWERTYUIOP{}"), Ascii("ASDFGHJKL:\"~"), Ascii("|ZXCVBNM<>?"), sc);
  }

  /** The three rows of letters, by their scan codes; shift gives the capital, 32 below. */
  lemma TopRow(i: nat)
    requires i < 10
    ensures CharOf(false, 0x10 + i) == "qwertyuiop"[i] as int && CharOf(true, 0x10 + i) == "qwertyuiop"[i] as int - 32
  {
    hide MapLo, MapHi;
    LowAt(0x10 + i);
    HighAt(0x10 + i);
  }

  lemma HomeRow(i: nat)
    requires i < 9
    ensures CharOf(false, 0x1E + i) == "asdfghjkl"[i] as int && CharOf(true, 0x1E + i) == "asdfghjkl"[i] as int - 32
  {
    hide MapLo, MapHi;
    LowAt(0x1E + i);
    HighAt(0x1E + i);
  }

  lemma BottomRow(i: nat)
    requires i < 7
    ensures CharOf(false, 0x2C + i) == "zxcvbnm"[i] as int && CharOf(true, 0x2C + i) == "zxcvbnm"[i] as int - 32
  {
    hide MapLo, MapHi;
    LowAt(0x2C + i);
    HighAt(0x2C + i);
  }

  /** The row of digits and what shift makes of it. */
  lemma DigitRow(i: nat)
    requires i < 12
    ensures CharOf(false, 0x02 + i) == "1234567890-="[i] as int && CharOf(true, 0x02 + i) == "!@#$%^&*()_+"[i] as int
  {
    hide MapLo, MapHi;
    LowAt(0x02 + i);
    HighAt(0x02 + i);
  }

  /** The keys beside the letters. */
  lemma SignKeys(shift: bool)
    ensures CharOf(shift, 0x1A) == (if shift then '{' as int else '[' as int) && CharOf(shift, 0x1B) == (if shift then '}' as int else ']' as int)
    ensures CharOf(shift, 0x27) == (if shift then ':' as int else ';' as int) && CharOf(shift, 0x28) == (if shift then 0x22 else 0x27)
    ensures CharOf(shift, 0x29) == (if shift then '~' as int else '`' as int)
  {
    hide MapLo, MapHi;
    LowAt(0x1A); LowAt(0x1B); LowAt(0x27); LowAt(0x28); LowAt(0x29);
    HighAt(0x1A); HighAt(0x1B); HighAt(0x27); HighAt(0x28); HighAt(0x29);
  }

  lemma LowerSignKeys(shift: bool)
    ensures CharOf(shift, 0x2B) == (if shift then '|' as int else 0x5C)
    ensures CharOf(shift, 0x33) == (if shift then '<' as int else ',' as int) && CharOf(shift, 0x34) == (if shift then '>' as int else '.' as int)
    ensures CharOf(shift, 0x35) == (if shift then '?' as int else '/' as int)
  {
    hide MapLo, MapHi;
    LowAt(0x2B); LowAt(0x33); LowAt(0x34); LowAt(0x35);
    HighAt(0x2B); HighAt(0x33); HighAt(0x34); HighAt(0x35);
  }

  /** Escape, backspace, tab, enter, space and the numeric pad are the same with shift. */
  lemma PlainKeys(shift: bool, i: nat)
    requires i < 13
    ensures CharOf(shift, 0x01) == 0x1B && CharOf(shift, 0x0E) == 8 && CharOf(shift, 0x0F) == 9 && CharOf(shift, 0x1C) == 10
    ensures CharOf(shift, 0x39) == 0x20 && CharOf(shift, 0x37) == '*' as int && CharOf(shift, 0x47 + i) == "789-456+1230."[i] as int
  {
    hide MapLo, MapHi;
    LowAt(0x01); LowAt(0x0E); LowAt(0x0F); LowAt(0x1C); LowAt(0x39); LowAt(0x37); LowAt(0x47 + i);
    HighAt(0x01); HighAt(0x0E); HighAt(0x0F); HighAt(0x1C); HighAt(0x39); HighAt(0x37); HighAt(0x47 + i);
  }

  /** The codes that stand for no character: control, shift, alt, the locks, function keys and every release. */
  lemma SilentKeys(shift: bool, sc: byte)
    requires sc in {0x00, 0x1D, 0x2A, 0x36, 0x38} || 0x3A <= sc <= 0x46 || sc >= 0x54
    ensures CharOf(shift, sc) == 0
  {
    hide MapLo, MapHi;
    if sc < 89 { LowAt(sc); HighAt(sc); }
  }

  /** Either shift key is held from its press (0x2A, 0x36) to its release (0xAA, 0xB6); no other code matters. */
  lemma ShiftHeld(shift: bool, sc: byte)
    ensures ShiftAfter(shift, 0x2A) && ShiftAfter(shift, 0x36) && !ShiftAfter(shift, 0xAA) && !ShiftAfter(shift, 0xB6)
    ensures sc !in {0x2A, 0x36, 0xAA, 0xB6} ==> ShiftAfter(shift, sc) == shift
  {
  }

  // ---- The ring buffer ------------------------------------------------------

  datatype Ring = Ring(buf: seq<byte>, head: nat, tail: nat, shift: bool)

  predicate RingOk(r: Ring) { |r.buf| == SIZE && r.head < SIZE && r.tail < SIZE }

  function Succ(i: nat): nat { (i + 1) % SIZE }

  function Count(r: Ring): (n: nat)
    requires RingOk(r)
  {
    if r.tail >= r.head then r.tail - r.head else r.tail + SIZE - r.head
  }

  /** The n characters from index i on, around the ring. */
  function Span(buf: seq<byte>, i: nat, n: nat): (s: seq<byte>)
    requires |buf| == SIZE && i < SIZE
    ensures |s| == n
    decreases n
  {
    if n == 0 then [] else [buf[i]] + Span(buf, Succ(i), n - 1)
  }

  /** The characters waiting in the ring, oldest first. */
  function Queue(r: Ring): (s: seq<byte>)
    requires RingOk(r)
    ensures |s| == Count(r)
  {
    Span(r.buf, r.head, Count(r))
  }

  function Pushed(r: Ring, c: byte): Ring
    requires RingOk(r)
  {
    if Succ(r.tail) == r.head then r else r.(buf := r.buf[r.tail := c], tail := Succ(r.tail))
  }

  lemma FullAt63(r: Ring)
    requires RingOk(r)
    ensures Succ(r.tail) == r.head <==> Count(r) == 63
    ensures Count(r) <= 63
  {
  }

  /** The slot n places after i. */
  function Slot(i: nat, n: nat): nat { (i + n) % SIZE }

  lemma {:induction false} SpanAppend(buf: seq<byte>, i: nat, n: nat, c: byte)
    requires |buf| == SIZE && i < SIZE && n < SIZE
    ensures Span(buf[Slot(i, n) := c], i, n + 1) == Span(buf, i, n) + [c]
    decreases n
  {
    var buf' := buf[Slot(i, n) := c];
    if n == 0 {
      assert Span(buf', Succ(i), 0) == [];
    } else {
      assert Slot(Succ(i), n - 1) == Slot(i, n);
      SpanAppend(buf, Succ(i), n - 1, c);
      assert Slot(i, n) != i;
    }
  }

  /** A character is appended to the queue, unless 63 are waiting: then it is dropped. */
  lemma PushAppends(r: Ring, c: byte)
    requires RingOk(r)
    ensures RingOk(Pushed(r, c)) && Pushed(r, c).shift == r.shift
    ensures Count(r) <= 63
    ensures Pushed(r, c) == r <== Count(r) == 63
    ensures Queue(Pushed(r, c)) == if Count(r) == 63 then Queue(r) else Queue(r) + [c]
  {
    FullAt63(r);
    if Count(r) < 63 {
      hide Slot, Succ, Span, Count;
      OneMoreWaits(r, c);
      SpanAppend(r.buf, r.head, Count(r), c);
    }
  }

  lemma OneMoreWaits(r: Ring, c: byte)
    requires RingOk(r) && Count(r) < 63
    ensures Slot(r.head, Count(r)) == r.tail && RingOk(Pushed(r, c)) && Count(Pushed(r, c)) == Count(r) + 1
  {
  }

  /** Advancing the head removes the oldest character. */
  lemma AdvanceRemoves(r: Ring)
    requires RingOk(r) && r.head != r.tail
    ensures var r' := r.(head := Succ(r.head));
            RingOk(r') && Queue(r) == [r.buf[r.head]] + Queue(r')
  {
  }

  // ---- Interrupts against the reader ----------------------------------------

  /** Where the reader is inside a pop: before it, after the emptiness check, after the load. */
  datatype Phase = Idle | Checked | Loaded(c: byte)

  /** The queue with its history: every character accepted, and every character delivered. */
  datatype System = System(ring: Ring, phase: Phase, accepted: seq<byte>, delivered: seq<byte>)

  datatype Event = Irq(sc: byte) | Read

  function AfterIrq(s: System, sc: byte): System
    requires RingOk(s.ring)
  {
    hide MapLo, MapHi;
    var c := CharOf(s.ring.shift, sc);
    var ring := s.ring.(shift := ShiftAfter(s.ring.shift, sc));
    if c == 0 then s.(ring := ring)
    else s.(ring := Pushed(ring, c), accepted := if Succ(s.ring.tail) == s.ring.head then s.accepted else s.accepted + [c])
  }

  /** One step of the reader. */
  function AfterRead(s: System): System
    requires RingOk(s.ring)
  {
    match s.phase
    case Idle => if s.ring.head == s.ring.tail then s else s.(phase := Checked)
    case Checked => s.(phase := Loaded(s.ring.buf[s.ring.head]))
    case Loaded(c) => s.(ring := s.ring.(head := Succ(s.ring.head)), phase := Idle, delivered := s.delivered + [c])
  }

  function After(s: System, e: Event): (s': System)
    requires RingOk(s.ring)
    ensures RingOk(s'.ring)
  {
    hide CharOf;
    match e case Irq(sc) => AfterIrq(s, sc) case Read => AfterRead(s)
  }

  function Run(s: System, es: seq<Event>): (s': System)
    requires RingOk(s.ring)
    ensures RingOk(s'.ring)
  {
    if es == [] then s else After(Run(s, es[..|es| - 1]), es[|es| - 1])
  }

  /** Nothing is lost, duplicated or reordered, and a loaded character is still the oldest one. */
  ghost predicate Inv(s: System)
  {
    && RingOk(s.ring)
    && s.accepted == s.delivered + Queue(s.ring)
    && (forall i | 0 <= i < |s.accepted| :: s.accepted[i] != 0)
    && (s.phase != Idle ==> s.ring.head != s.ring.tail)
    && (s.phase.Loaded? ==> s.phase.c == s.ring.buf[s.ring.head])
  }

  lemma IrqKeepsInv(s: System, sc: byte)
    requires Inv(s)
    ensures Inv(AfterIrq(s, sc))
  {
    hide MapLo, MapHi, Queue;
    var c := CharOf(s.ring.shift, sc);
    var ring := s.ring.(shift := ShiftAfter(s.ring.shift, sc));
    SameQueue(s.ring, ring);
    PushAppends(ring, c);
    assert s.delivered + (Queue(ring) + [c]) == (s.delivered + Queue(ring)) + [c];
  }

  lemma SameQueue(r: Ring, r': Ring)
    requires RingOk(r) && r' == r.(shift := r'.shift)
    ensures Queue(r) == Queue(r') && Count(r) == Count(r')
  {
  }

  lemma ReadKeepsInv(s: System)
    requires Inv(s)
    ensures Inv(AfterRead(s))
  {
    hide Queue;
    if s.phase.Loaded? {
      AdvanceRemoves(s.ring);
      var c, rest := s.phase.c, Queue(s.ring.(head := Succ(s.ring.head)));
      assert s.delivered + ([c] + rest) == (s.delivered + [c]) + rest;
    }
  }

  /** Every interleaving of interrupts and reader steps keeps the invariant. */
  lemma {:induction false} RunKeepsInv(s: System, es: seq<Event>)
    requires Inv(s)
    ensures Inv(Run(s, es))
  {
    hide AfterIrq, AfterRead, Queue, Count;
    if es != [] {
      var s' := Run(s, es[..|es| - 1]);
      RunKeepsInv(s, es[..|es| - 1]);
      match es[|es| - 1]
      case Irq(sc) => IrqKeepsInv(s', sc);
      case Read => ReadKeepsInv(s');
    }
  }

  const EMPTY: System := System(Ring(Zeros(64), 0, 0, false), Idle, [], [])

  /** From boot on: the accepted characters are the delivered ones followed by those still queued. */
  lemma AcceptedIsDeliveredPlusQueued(es: seq<Event>)
    ensures var s := Run(EMPTY, es);
            s.accepted == s.delivered + Queue(s.ring) && |Queue(s.ring)| <= 63
  {
    RunKeepsInv(EMPTY, es);
    PushAppends(Run(EMPTY, es).ring, 0);
  }

  /** An interrupt's character is dropped exactly when 63 characters are queued. */
  lemma DroppedIffFull(es: seq<Event>, sc: byte)
    requires CharOf(Run(EMPTY, es).ring.shift, sc) != 0
    ensures var s := Run(EMPTY, es);
            var s' := After(s, Irq(sc));
            && s'.accepted == (if |Queue(s.ring)| == 63 then s.accepted else s.accepted + [CharOf(s.ring.shift, sc)])
            && s'.delivered == s.delivered
  {
    hide CharOf;
    FullAt63(Run(EMPTY, es).ring);
  }

  /** Shift pressed, a letter key typed, shift released and the key typed again: its capital and its small letter are queued. */
  lemma CapitalThenSmall(s: System, i: nat)
    requires Inv(s) && Count(s.ring) <= 61 && i < 10
    ensures var r := After(After(After(After(s, Irq(0x2A)), Irq(0x10 + i)), Irq(0xAA)), Irq(0x10 + i));
            && r.accepted == s.accepted + ["QWERTYUIOP"[i] as int, "qwertyuiop"[i] as int]
            && r.delivered == s.delivered && !r.ring.shift
  {
    hide MapLo, MapHi, CharOf, Queue, Count, Span, Succ;
    TopRow(i);
    SilentKeys(s.ring.shift, 0x2A);
    SilentKeys(true, 0xAA);
    var s1 := After(s, Irq(0x2A));
    SilentIrq(s, 0x2A);
    CountedIrq(s1, 0x10 + i);
    var s2 := After(s1, Irq(0x10 + i));
    SilentIrq(s2, 0xAA);
    var s3 := After(s2, Irq(0xAA));
    CountedIrq(s3, 0x10 + i);
    assert s.accepted + ["QWERTYUIOP"[i] as int] + ["qwertyuiop"[i] as int] == s.accepted + ["QWERTYUIOP"[i] as int, "qwertyuiop"[i] as int];
  }

  lemma SilentIrq(s: System, sc: byte)
    requires RingOk(s.ring) && CharOf(s.ring.shift, sc) == 0
    ensures After(s, Irq(sc)) == s.(ring := s.ring.(shift := ShiftAfter(s.ring.shift, sc)))
    ensures Count(After(s, Irq(sc)).ring) == Count(s.ring)
  {
    hide CharOf;
  }

  lemma CountedIrq(s: System, sc: byte)
    requires RingOk(s.ring) && CharOf(s.ring.shift, sc) != 0 && Count(s.ring) < 63
    ensures var s' := After(s, Irq(sc));
            && s'.accepted == s.accepted + [CharOf(s.ring.shift, sc)] && s'.delivered == s.delivered
            && s'.ring.shift == ShiftAfter(s.ring.shift, sc) && Count(s'.ring) == Count(s.ring) + 1
  {
    hide CharOf;
    FullAt63(s.ring);
    OneMoreWaits(s.ring.(shift := ShiftAfter(s.ring.shift, sc)), CharOf(s.ring.shift, sc));
  }

  function Irqs(scs: seq<byte>): (es: seq<Event>)
    ensures |es| == |scs|
  {
    if scs == [] then [] else Irqs(scs[..|scs| - 1]) + [Irq(scs[|scs| - 1])]
  }

  /** A reader's pop with the interrupts that come before it, after its check and after its load. */
  datatype Arrivals = Arrivals(first: seq<byte>, second: seq<byte>, third: seq<byte>)

  /** The events of a pop; a pop that finds the queue empty takes a single step. */
  function Events(w: Arrivals, popped: bool): seq<Event>
  {
    Irqs(w.first) + [Read] + (if popped then Irqs(w.second) + [Read] + Irqs(w.third) + [Read] else [])
  }

  lemma {:induction false} RunConcat(s: System, a: seq<Event>, b: seq<Event>)
    requires RingOk(s.ring)
    ensures Run(s, a + b) == Run(Run(s, a), b)
    decreases b
  {
    hide After;
    if b == [] {
      assert a + b == a;
    } else {
      assert (a + b)[..|a + b| - 1] == a + b[..|b| - 1];
      RunConcat(s, a, b[..|b| - 1]);
    }
  }

  lemma RunOne(s: System, e: Event)
    requires RingOk(s.ring)
    ensures Run(s, [e]) == After(s, e)
  {
    hide After;
    assert Run(s, []) == s;
  }

  class Driver {
    const buf: array<byte>
    var head: nat
    var tail: nat
    var shift: bool
    ghost var accepted: seq<byte>
    ghost var delivered: seq<byte>

    constructor ()
      ensures View(Idle) == EMPTY && fresh(buf)
    {
      buf := new byte[SIZE](_ => 0);
      head := 0;
      tail := 0;
      shift := false;
      accepted := [];
      delivered := [];
      new;
      assert buf[..] == Zeros(64);
    }

    ghost function View(phase: Phase): System
      reads this, buf
    {
      System(Ring(buf[..], head, tail, shift), phase, accepted, delivered)
    }

    method Push(c: byte, ghost phase: Phase)
      requires Inv(View(phase)) && c != 0
      modifies this, buf
      ensures var s := old(View(phase));
              View(phase) == s.(ring := Pushed(s.ring, c),
                                accepted := if Succ(s.ring.tail) == s.ring.head then s.accepted else s.accepted + [c])
    {
      var next := (tail + 1) % SIZE;
      if next == head { return; }
      buf[tail] := c;
      tail := next;
      accepted := accepted + [c];
    }

    /** The interrupt handler for one scan code. */
    method IrqHandler(sc: byte, ghost phase: Phase)
      requires Inv(View(phase))
      modifies this, buf
      ensures View(phase) == AfterIrq(old(View(phase)), sc) && Inv(View(phase))
    {
      hide MapLo, MapHi, Inv;
      InvRing(View(phase));
      IrqKeepsInv(View(phase), sc);
      if sc == 0x2A || sc == 0x36 { shift := true; }
      else if sc == 0xAA || sc == 0xB6 { shift := false; }
      else if sc < 0x80 {
        if sc < 89 {
          var ch := if shift then MapHi()[sc] else MapLo()[sc];
          if ch != 0 { Push(ch, phase); }
        }
      }
    }

    method Interrupts(scs: seq<byte>, ghost phase: Phase)
      requires Inv(View(phase))
      modifies this, buf
      ensures View(phase) == Run(old(View(phase)), Irqs(scs)) && Inv(View(phase))
    {
      hide Inv, AfterIrq;
      InvRing(View(phase));
      for i := 0 to |scs|
        invariant Inv(View(phase)) && View(phase) == Run(old(View(phase)), Irqs(scs[..i]))
      {
        assert scs[..i + 1][..i] == scs[..i];
        IrqHandler(scs[i], phase);
      }
      assert scs[..|scs|] == scs;
    }

    /** Takes the oldest character, or returns 0 when there is none. */
    method Pop(w: Arrivals) returns (c: byte)
      requires Inv(View(Idle))
      modifies this, buf
      ensures Inv(View(Idle)) && View(Idle) == Run(old(View(Idle)), Events(w, c != 0))
      ensures delivered == if c == 0 then old(delivered) else old(delivered) + [c]
    {
      hide Inv, AfterIrq, Irqs;
      ghost var s0 := View(Idle);
      InvRing(s0);
      Interrupts(w.first, Idle);
      ghost var s1 := View(Idle);
      ReadKeepsInv(s1);
      RunOne(s1, Read);
      RunConcat(s0, Irqs(w.first), [Read]);
      DeliveredKept(s0, w.first);
      if head == tail {
        assert Events(w, false) == Irqs(w.first) + [Read];
        return 0;
      }
      Interrupts(w.second, Checked);
      ghost var s2 := View(Checked);
      c := buf[head];
      ReadKeepsInv(s2);
      RunOne(s2, Read);
      InvNoNul(View(Loaded(c)));
      Interrupts(w.third, Loaded(c));
      ghost var s3 := View(Loaded(c));
      head := (head + 1) % SIZE;
      delivered := delivered + [c];
      ReadKeepsInv(s3);
      RunOne(s3, Read);
      PopRuns(s0, w);
      DeliveredKept(After(s1, Read), w.second);
      DeliveredKept(After(s2, Read), w.third);
    }
  }

  lemma InvRing(s: System)
    requires Inv(s)
    ensures RingOk(s.ring)
  {
  }

  lemma InvNoNul(s: System)
    requires Inv(s) && s.phase.Loaded?
    ensures s.phase.c != 0
  {
    assert s.accepted[|s.delivered|] == Queue(s.ring)[0];
  }

  lemma {:induction false} DeliveredKept(s: System, scs: seq<byte>)
    requires RingOk(s.ring)
    ensures Run(s, Irqs(scs)).delivered == s.delivered
    decreases scs
  {
    hide CharOf;
    if scs != [] {
      DeliveredKept(s, scs[..|scs| - 1]);
      assert Irqs(scs)[..|scs| - 1] == Irqs(scs[..|scs| - 1]);
    }
  }

  /** The run over a whole pop, piece by piece. */
  lemma PopRuns(s: System, w: Arrivals)
    requires RingOk(s.ring)
    ensures Run(s, Events(w, true)) ==
            After(Run(After(Run(After(Run(s, Irqs(w.first)), Read), Irqs(w.second)), Read), Irqs(w.third)), Read)
  {
    hide After, Irqs, Run;
    var a, b, c := Irqs(w.first), Irqs(w.second), Irqs(w.third);
    RunConcat(s, a, [Read]);
    RunOne(Run(s, a), Read);
    var s1 := Run(s, a + [Read]);
    RunConcat(s1, b, [Read]);
    RunOne(Run(s1, b), Read);
    var s2 := Run(s1, b + [Read]);
    RunConcat(s2, c, [Read]);
    RunOne(Run(s2, c), Read);
    RunConcat(s1, b + [Read], c + [Read]);
    RunConcat(s, a + [Read], (b + [Read]) + (c + [Read]));
    assert Events(w, true) == (a + [Read]) + ((b + [Read]) + (c + [Read]));
  }

  // ---- Line editing ---------------------------------------------------------

  predicate IsEnter(c: byte) { c == 10 || c == 13 }

  predicate IsPrintable(c: byte) { 0x20 <= c < 0x7F }

  /** The line after one more character: backspace deletes, printable characters are kept while there is room. */
  function Edit(line: seq<byte>, c: byte, maxlen: nat): seq<byte>
  {
    if c == 8 then (if line == [] then [] else line[..|line| - 1])
    else if IsPrintable(c) && |line| < maxlen - 1 then line + [c]
    else line
  }

  function EditAll(s: seq<byte>, maxlen: nat): seq<byte>
  {
    if s == [] then [] else Edit(EditAll(s[..|s| - 1], maxlen), s[|s| - 1], maxlen)
  }

  lemma {:induction false} LineFits(s: seq<byte>, maxlen: nat)
    requires maxlen > 0
    ensures |EditAll(s, maxlen)| < maxlen && forall i | 0 <= i < |EditAll(s, maxlen)| :: IsPrintable(EditAll(s, maxlen)[i])
  {
    if s != [] { LineFits(s[..|s| - 1], maxlen); }
  }

  /** A backspace undoes the character before it, wherever it comes. */
  lemma BackspaceUndoes(s: seq<byte>, c: byte, maxlen: nat)
    requires IsPrintable(c) && |EditAll(s, maxlen)| < maxlen - 1
    ensures EditAll(s + [c, 8], maxlen) == EditAll(s, maxlen)
  {
    var t := s + [c, 8];
    assert t[..|t| - 1] == s + [c];
    assert (s + [c])[..|s|] == s;
  }

  lemma EditPrintable(line: seq<byte>, c: byte, maxlen: nat)
    requires IsPrintable(c)
    ensures Edit(line, c, maxlen) == if |line| < maxlen - 1 then line + [c] else line
  {
  }

  /** Printable text is taken as it is, up to the limit. */
  lemma {:induction false} PlainText(s: seq<byte>, maxlen: nat)
    requires maxlen > 0 && forall i | 0 <= i < |s| :: IsPrintable(s[i])
    ensures EditAll(s, maxlen) == if |s| < maxlen then s else s[..maxlen - 1]
  {
    if s != [] {
      hide IsPrintable;
      var n := |s| - 1;
      PlainText(s[..n], maxlen);
      EditPrintable(EditAll(s[..n], maxlen), s[n], maxlen);
      assert s == s[..n] + [s[n]];
      assert n >= maxlen ==> s[..n][..maxlen - 1] == s[..maxlen - 1];
    }
  }

  // ---- Echo -----------------------------------------------------------------

  /** What is echoed for one more character after the given line. */
  function EchoOf(line: seq<byte>, c: byte, maxlen: nat): seq<byte>
  {
    if IsEnter(c) then [10]
    else if c == 8 then (if line == [] then [] else [8, 0x20, 8])
    else if IsPrintable(c) && |line| < maxlen - 1 then [c]
    else []
  }

  function EchoAll(s: seq<byte>, maxlen: nat): seq<byte>
  {
    if s == [] then []
    else
      var pre := s[..|s| - 1];
      EchoAll(pre, maxlen) + EchoOf(EditAll(pre, maxlen), s[|s| - 1], maxlen)
  }

  /** A terminal line with its cursor: backspace moves left, other characters overwrite. */
  datatype Screen = Screen(cells: seq<byte>, cur: nat)

  function Show(t: Screen, c: byte): Screen
  {
    if c == 8 then (if t.cur == 0 then t else Screen(t.cells, t.cur - 1))
    else if t.cur < |t.cells| then Screen(t.cells[t.cur := c], t.cur + 1)
    else Screen(t.cells + [c], |t.cells| + 1)
  }

  function ShowAll(t: Screen, s: seq<byte>): Screen
  {
    if s == [] then t else Show(ShowAll(t, s[..|s| - 1]), s[|s| - 1])
  }

  lemma {:induction false} ShowConcat(t: Screen, a: seq<byte>, b: seq<byte>)
    ensures ShowAll(t, a + b) == ShowAll(ShowAll(t, a), b)
    decreases b
  {
    hide Show;
    if b == [] {
      assert a + b == a;
    } else {
      assert (a + b)[..|a + b| - 1] == a + b[..|b| - 1];
      ShowConcat(t, a, b[..|b| - 1]);
    }
  }

  /** The screen shows the line up to the cursor, and blanks after it. */
  predicate Shows(t: Screen, line: seq<byte>)
  {
    t.cur == |line| <= |t.cells| && t.cells[..t.cur] == line && forall i | t.cur <= i < |t.cells| :: t.cells[i] == 0x20
  }

  lemma EchoStep(t: Screen, line: seq<byte>, c: byte, maxlen: nat)
    requires Shows(t, line) && !IsEnter(c)
    ensures Shows(ShowAll(t, EchoOf(line, c, maxlen)), Edit(line, c, maxlen))
  {
    if c == 8 && line != [] {
      var t1 := Screen(t.cells, t.cur - 1);
      var t2 := Screen(t.cells[t.cur - 1 := 0x20], t.cur);
      var e: seq<byte> := [8, 0x20, 8];
      assert e[..2][..1] == [8] && e[..1][..0] == [] && e[..2] == [8, 0x20];
      assert ShowAll(t, [8]) == t1 by { assert [8][..0] == []; }
      assert ShowAll(t, [8, 0x20]) == t2 by { assert [8, 0x20][..1] == [8]; }
      assert ShowAll(t, e) == Screen(t2.cells, t.cur - 1);
    } else if c != 8 && IsPrintable(c) && |line| < maxlen - 1 {
      assert [c][..0] == [];
      assert ShowAll(t, [c]) == Show(t, c);
    }
  }

  /** Whatever is typed before Enter, the echo leaves exactly the edited line on the screen. */
  lemma {:induction false} EchoShowsLine(s: seq<byte>, maxlen: nat)
    requires NoEnter(s)
    ensures Shows(ShowAll(Screen([], 0), EchoAll(s, maxlen)), EditAll(s, maxlen))
  {
    hide Shows, Show, Edit, EchoOf;
    if s == [] {
      NothingShown();
    } else {
      var pre, c := s[..|s| - 1], s[|s| - 1];
      EchoShowsLine(pre, maxlen);
      ShowConcat(Screen([], 0), EchoAll(pre, maxlen), EchoOf(EditAll(pre, maxlen), c, maxlen));
      EchoStep(ShowAll(Screen([], 0), EchoAll(pre, maxlen)), EditAll(pre, maxlen), c, maxlen);
    }
  }

  lemma NothingShown() ensures Shows(Screen([], 0), []) { }

  predicate NoEnter(s: seq<byte>) { forall i | 0 <= i < |s| :: !IsEnter(s[i]) }

  lemma NothingTyped(maxlen: nat) ensures EditAll([], maxlen) == [] && EchoAll([], maxlen) == [] { }

  lemma EchoOneMore(s: seq<byte>, c: byte, maxlen: nat)
    ensures EchoAll(s + [c], maxlen) == EchoAll(s, maxlen) + EchoOf(EditAll(s, maxlen), c, maxlen)
  {
    assert (s + [c])[..|s|] == s;
  }

  lemma EchoOfEnter(line: seq<byte>, c: byte, maxlen: nat)
    requires IsEnter(c)
    ensures EchoOf(line, c, maxlen) == [10]
  {
  }

  lemma EditOneMore(s: seq<byte>, c: byte, maxlen: nat)
    ensures EditAll(s + [c], maxlen) == Edit(EditAll(s, maxlen), c, maxlen)
  {
    assert (s + [c])[..|s|] == s;
  }

  /** The effect of one character on the line buffer. */
  method EditLine(line: array<byte>, len: nat, c: byte, maxlen: nat) returns (n: nat, echoed: seq<byte>)
    requires len < maxlen <= line.Length && !IsEnter(c)
    modifies line
    ensures n < maxlen && line[..n] == Edit(old(line[..len]), c, maxlen)
    ensures c == 8 ==> line[..n] == old(line[..if len == 0 then 0 else len - 1])
    ensures 32 <= c <= 126 ==> line[..n] == old(line[..len]) + (if len < maxlen - 1 then [c] else [])
    ensures c != 8 && !(32 <= c <= 126) ==> line[..n] == old(line[..len])
    ensures echoed == EchoOf(old(line[..len]), c, maxlen)
  {
    n, echoed := len, [];
    if c == 8 {
      if n > 0 {
        n := n - 1;
        echoed := [8, 0x20, 8];
      }
    } else if c >= 0x20 && c < 0x7F && n < maxlen - 1 {
      line[n] := c;
      n := n + 1;
      echoed := [c];
    }
  }

  /**
   Reads a line. The k-th attempt to take a character is interrupted as the k-th arrival says; None
   means that the reader is still waiting when they are used up.
   */
  method ReadLine(kb: Driver, line: array<byte>, maxlen: nat, ws: seq<Arrivals>, echo: bool)
      returns (r: Option<nat>, echoed: seq<byte>)
    requires Inv(kb.View(Idle)) && 0 < maxlen <= line.Length && line != kb.buf
    modifies kb, kb.buf, line
    ensures Inv(kb.View(Idle)) && old(kb.delivered) <= kb.delivered
    ensures var got := kb.delivered[|old(kb.delivered)|..];
            match r
            case None => NoEnter(got)
            case Some(n) =>
              && got != [] && IsEnter(got[|got| - 1]) && NoEnter(got[..|got| - 1])
              && n < maxlen && line[..n] == EditAll(got[..|got| - 1], maxlen) && line[n] == 0
    ensures echoed == if echo then EchoAll(kb.delivered[|old(kb.delivered)|..], maxlen) else []
  {
    hide Inv, Events, Run, Edit, EditAll, EchoOf, EchoAll, IsPrintable;
    NothingTyped(maxlen);
    ghost var before := kb.delivered;
    ghost var got: seq<byte> := [];
    var len: nat := 0;
    echoed := [];
    for k := 0 to |ws|
      invariant Inv(kb.View(Idle)) && kb.delivered == before + got && NoEnter(got)
      invariant len < maxlen && line[..len] == EditAll(got, maxlen)
      invariant echoed == if echo then EchoAll(got, maxlen) else []
    {
      var c := kb.Pop(ws[k]);
      if c == 0 { continue; }
      ghost var got' := got + [c];
      assert got'[..|got'| - 1] == got && before + got' == (before + got) + [c];
      if c == 10 || c == 13 {
        line[len] := 0;
        EchoOneMore(got, c, maxlen);
        EchoOfEnter(line[..len], c, maxlen);
        if echo { echoed := echoed + [10]; }
        assert kb.delivered[|before|..] == got';
        return Some(len), echoed;
      }
      EditOneMore(got, c, maxlen);
      EchoOneMore(got, c, maxlen);
      got := got';
      var piece;
      len, piece := EditLine(line, len, c, maxlen);
      if echo { echoed := echoed + piece; }
    }
    assert kb.delivered[|before|..] == got;
    return None, echoed;
  }
}
