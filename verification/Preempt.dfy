/**
 Resident tasks under the preemptive scheduler, on a machine with one memory, one processor and
 timer ticks at arbitrary times, against each task running alone.
 */
module Preempt {
  import opened Bytes
  import opened Paging
  import opened Vmm
  import opened Isolation
  import opened Frames
  import opened Sched

  datatype Write = Write(va: u64, v: byte)

  /**
   What one ring-3 instruction asks for, and the registers after it (or at its fault). A store may
   write any number of bytes; they are all written, or it faults and none is.
   */
  datatype Action =
    | Compute(next: Cpu)
    | Stores(writes: seq<Write>, next: Cpu)
    | Int80(next: Cpu)
    | PageFault(next: Cpu)
    | Trap(vector: Exception, next: Cpu)

  /** The vectors of the processor's other exceptions. */
  type Exception = v: int | 0 <= v < 32 && v != 14 witness 0

  /** The instruction set: any function of the registers and of the memory ring 3 can read. */
  type Isa = (Cpu, map<int, byte>) -> Action

  // ---- A task by itself -----------------------------------------------------

  /** How a task by itself stops: at its own end, or by an exception that stops the whole machine. */
  datatype Stop = Ends(end: End) | Crashes

  datatype Alone = Alone(cpu: Cpu, view: map<int, byte>, out: seq<byte>, stop: Option<Stop>)

  ghost predicate InView(view: map<int, byte>, lo: nat, n: nat)
  {
    forall a | lo <= a < lo + n :: a in view
  }

  ghost function Taken(view: map<int, byte>, lo: nat, n: nat): seq<byte>
    requires InView(view, lo, n)
  {
    seq(n, i requires 0 <= i < n => view[lo + i])
  }

  /** A write system call stays inside the task's own pages. */
  ghost predicate OwnBuffer(c: Cpu, view: map<int, byte>)
  {
    c.rax == 1 && c.rdi == 1 && c.rsi != 0 ==> InView(view, c.rsi, c.rdx)
  }

  ghost function Served(s: Alone, c: Cpu): Alone
  {
    if c.rax == 1 then
      if c.rdi != 1 || c.rsi == 0 then s.(cpu := c.(rax := 0xFFFF_FFFF_FFFF_FFFF))
      else if !InView(s.view, c.rsi, c.rdx) then s
      else s.(cpu := c.(rax := c.rdx), out := s.out + Taken(s.view, c.rsi, c.rdx))
    else if c.rax == 2 then s.(cpu := c, stop := Some(Ends(Exited(c.rdi))))
    else if c.rax == 3 then s.(cpu := c.(rax := 0))
    else s.(cpu := c.(rax := 0xFFFF_FFFF_FFFF_FFFF))
  }

  ghost predicate AllIn(view: map<int, byte>, ws: seq<Write>) { forall i | 0 <= i < |ws| :: ws[i].va in view }

  /** The view after the writes, in order. */
  ghost function Updated(view: map<int, byte>, ws: seq<Write>): map<int, byte>
  {
    if ws == [] then view else Updated(view, ws[..|ws| - 1])[ws[|ws| - 1].va := ws[|ws| - 1].v]
  }

  ghost function AloneStep(isa: Isa, s: Alone): Alone
  {
    if s.stop.Some? then s else
    match isa(s.cpu, s.view)
    case Compute(c) => s.(cpu := c)
    case Stores(ws, c) =>
      if AllIn(s.view, ws) then s.(cpu := c, view := Updated(s.view, ws)) else s.(cpu := c, stop := Some(Ends(Faulted)))
    case Int80(c) => Served(s, c)
    case PageFault(c) => s.(cpu := c, stop := Some(Ends(Faulted)))
    case Trap(_, _) => s.(stop := Some(Crashes))
  }

  ghost function AloneRun(isa: Isa, s: Alone, n: nat): Alone
  {
    if n == 0 then s else AloneStep(isa, AloneRun(isa, s, n - 1))
  }

  ghost predicate Polite(isa: Isa, s: Alone)
  {
    s.stop.None? && isa(s.cpu, s.view).Int80? ==> OwnBuffer(isa(s.cpu, s.view).next, s.view)
  }

  /** Ring-3 code cannot change its own privilege level. */
  ghost predicate StaysInRing3(isa: Isa)
  {
    forall c: Cpu, view: map<int, byte> {:trigger isa(c, view)} :: c.cs % 4 == 3 ==> isa(c, view).next.cs % 4 == 3
  }

  // ---- The machine ----------------------------------------------------------

  datatype Halt = TaskEnd(idx: nat, end: End) | Dead

  datatype Machine = Machine(mem: seq<byte>, cpu: Cpu, k: KState, out: seq<seq<byte>>, halted: Option<Halt>)

  datatype Ev = Timer | Exec

  ghost predicate Readable(mem: seq<byte>, cr3: nat, va: u64)
  {
    var w := Walk(mem, cr3, va);
    w.Some? && w.value.user && w.value.pa < |mem|
  }

  /** Everything ring 3 can read through the tables at cr3. */
  ghost function UserView(mem: seq<byte>, cr3: nat): map<int, byte>
  {
    map va: int | 0 <= va < TWO64 && Readable(mem, cr3, va) :: mem[Walk(mem, cr3, va).value.pa]
  }

  ghost predicate Good(g: Machine)
  {
    WellFormed(g.k) && |g.out| == |g.k.tasks| && g.k.cur < g.k.ntasks
  }

  ghost function Interrupt(g: Machine, c: Cpu, vector: u64): (r: Machine)
    requires Good(g)
    ensures Good(r) && r.k.ntasks == g.k.ntasks && r.mem == g.mem
  {
    var f := FrameOf(c, vector, 0);
    var k' := DispatchState(g.k, f);
    match DispatchOutcome(g.k, f, g.mem)
    case Back(b, w) => g.(cpu := CpuOf(b), k := k', out := g.out[g.k.cur := g.out[g.k.cur] + w])
    case Switch(b, cr3) => g.(cpu := CpuOf(b), k := k')
    case Ended(e) => g.(cpu := c, k := k', halted := Some(TaskEnd(g.k.cur, e)))
    case Panic => g.(k := k', halted := Some(Dead))
  }

  ghost predicate AllWritable(m: seq<byte>, cr3: nat, ws: seq<Write>)
  {
    forall i | 0 <= i < |ws| :: UserWritable(m, cr3, ws[i].va)
  }

  ghost function StoreAll(m: seq<byte>, cr3: nat, ws: seq<Write>): seq<byte>
  {
    if ws == [] then m else UserStore(StoreAll(m, cr3, ws[..|ws| - 1]), cr3, ws[|ws| - 1].va, ws[|ws| - 1].v)
  }

  ghost function ExecStep(isa: Isa, g: Machine): (r: Machine)
    requires Good(g)
    ensures Good(r) && r.k.ntasks == g.k.ntasks
  {
    var cr3 := g.k.tasks[g.k.cur].cr3;
    match isa(g.cpu, UserView(g.mem, cr3))
    case Compute(c) => g.(cpu := c)
    case Stores(ws, c) =>
      if AllWritable(g.mem, cr3, ws) then g.(cpu := c, mem := StoreAll(g.mem, cr3, ws)) else Interrupt(g, c, 14)
    case Int80(c) => Interrupt(g, c, 128)
    case PageFault(c) => Interrupt(g, c, 14)
    case Trap(v, c) => Interrupt(g, c, v)
  }

  ghost function MachineStep(isa: Isa, g: Machine, e: Ev): (r: Machine)
    requires Good(g)
    ensures Good(r) && r.k.ntasks == g.k.ntasks
  {
    if g.halted.Some? then g else if e.Timer? then Interrupt(g, g.cpu, 32) else ExecStep(isa, g)
  }

  ghost function MachineRun(isa: Isa, g: Machine, es: seq<Ev>): (r: Machine)
    requires Good(g)
    ensures Good(r) && r.k.ntasks == g.k.ntasks
  {
    if es == [] then g else MachineStep(isa, MachineRun(isa, g, es[..|es| - 1]), es[|es| - 1])
  }

  /** How many events of the given kind reached task i before the first task end. */
  ghost function Count(isa: Isa, g: Machine, es: seq<Ev>, kind: Ev, i: nat): nat
    requires Good(g)
  {
    if es == [] then 0 else
    var h := MachineRun(isa, g, es[..|es| - 1]);
    Count(isa, g, es[..|es| - 1], kind, i) + (if h.halted.None? && es[|es| - 1] == kind && h.k.cur == i then 1 else 0)
  }

  // ---- Projection onto one task ---------------------------------------------

  /** The registers task i would run with next: live, saved, or still to be set up. */
  ghost function TaskCpu(g: Machine, i: nat): Cpu
    requires Good(g) && i < g.k.ntasks
  {
    NextCpu(g.k, i, g.cpu)
  }

  ghost function NextCpu(k: KState, i: nat, live: Cpu): Cpu
    requires WellFormed(k) && i < k.ntasks
  {
    if i == k.cur then live
    else if k.tasks[i].started then CpuOf(k.tasks[i].frame)
    else CpuOf(InitialFrame(k.entry[i], k.stktop[i]))
  }

  ghost function StopOf(g: Machine, i: nat): Option<Stop>
  {
    if g.halted == None then None
    else
      match g.halted.value
      case TaskEnd(idx, end) => if idx == i then Some(Ends(end)) else None
      case Dead => if g.k.cur == i then Some(Crashes) else None
  }

  ghost function Project(g: Machine, i: nat): Alone
    requires Good(g) && i < g.k.ntasks
  {
    Alone(TaskCpu(g, i), UserView(g.mem, g.k.tasks[i].cr3), g.out[i], StopOf(g, i))
  }

  /** Task i's tables are as the kernel built them, and the windows do not overlap. */
  ghost predicate Placed(boot: nat, bump: nat, spaces: seq<Space>, g: Machine)
  {
    && Inv(boot, World(g.mem, bump, spaces))
    && |spaces| == g.k.ntasks <= |g.k.tasks|
    && (forall i | 0 <= i < |spaces| :: g.k.tasks[i].cr3 == spaces[i].cr3)
    && forall i, j, a: nat | 0 <= i < |spaces| && 0 <= j < |spaces| && InWindow(spaces[i].base, a) && InWindow(spaces[j].base, a) :: i == j
  }

  /** The resident pair meets this: its two windows share no page although the second base is not aligned. */
  lemma PairIsPlaced(boot: nat, w: World, g: Machine)
    requires Inv(boot, w) && boot + 6 * TABLE <= POOL_BASE
    requires |w.spaces| == 2 && w.spaces[0].base == 0x1900_0000 && w.spaces[1].base == 0x1950_0000
    requires Good(g) && g.mem == w.m && g.k.ntasks == 2 <= |g.k.tasks|
    requires g.k.tasks[0].cr3 == w.spaces[0].cr3 && g.k.tasks[1].cr3 == w.spaces[1].cr3
    ensures Placed(boot, w.bump, w.spaces, g)
  {
    hide Inv, InWindow;
    assert BootPlaced(boot) by { BootIsPlaced(boot, w); }
    assert World(g.mem, w.bump, w.spaces) == w;
    forall i, j, a: nat | 0 <= i < 2 && 0 <= j < 2 && InWindow(w.spaces[i].base, a) && InWindow(w.spaces[j].base, a) ensures i == j {
      PairWindows(boot, a);
    }
  }

  lemma BootIsPlaced(boot: nat, w: World)
    requires Inv(boot, w)
    ensures BootPlaced(boot)
  {
  }

  /** Every task is in ring 3, and the current one has started. */
  ghost predicate InRing3(g: Machine)
  {
    && Good(g) && g.k.tasks[g.k.cur].started
    && forall i: nat {:trigger TaskCpu(g, i)} | i < g.k.ntasks :: TaskCpu(g, i).cs % 4 == 3
  }

  // ---- Views ----------------------------------------------------------------

  /** Through the tables at cr3 ring 3 reaches exactly the window, at its own addresses. */
  ghost predicate Sees(mem: seq<byte>, cr3: nat, base: u64)
  {
    |mem| == GIB4 && forall va: u64 {:trigger Walk(mem, cr3, va)} ::
      (Readable(mem, cr3, va) <==> InWindow(base, va)) && (UserWritable(mem, cr3, va) <==> InWindow(base, va))
      && (InWindow(base, va) ==> Walk(mem, cr3, va).value.pa == va)
  }

  lemma SpaceSees(boot: nat, w: World, i: nat)
    requires Inv(boot, w) && i < |w.spaces|
    ensures Sees(w.m, w.spaces[i].cr3, w.spaces[i].base)
  {
    forall va: u64
      ensures (Readable(w.m, w.spaces[i].cr3, va) <==> InWindow(w.spaces[i].base, va))
              && (UserWritable(w.m, w.spaces[i].cr3, va) <==> InWindow(w.spaces[i].base, va))
              && (InWindow(w.spaces[i].base, va) ==> Walk(w.m, w.spaces[i].cr3, va).value.pa == va) {
      hide Walk;
      WalkBuilt(w.m, boot, w.spaces[i].cr3, w.spaces[i].base, va);
    }
  }

  lemma ViewOfWindow(mem: seq<byte>, cr3: nat, base: u64)
    requires Sees(mem, cr3, base)
    ensures UserView(mem, cr3) == map a: int | 0 <= a < 0x4000_0000 && InWindow(base, a) :: mem[a]
  {
    hide Walk;
    var view := UserView(mem, cr3);
    forall a: int ensures a in view <==> 0 <= a < 0x4000_0000 && InWindow(base, a) {
      if 0 <= a < TWO64 { assert Walk(mem, cr3, a) == Walk(mem, cr3, a); }
    }
    forall a | a in view ensures view[a] == mem[a] {
      assert Walk(mem, cr3, a) == Walk(mem, cr3, a);
    }
  }

  /** One more byte in memory is one more byte in the owner's view and in no other. */
  lemma StoreViews(mem: seq<byte>, r: seq<byte>, cr3: nat, base: u64, va: u64, v: byte)
    requires Sees(mem, cr3, base) && Sees(r, cr3, base) && va < |mem| && r == mem[va := v]
    ensures UserView(r, cr3) == if InWindow(base, va) then UserView(mem, cr3)[va := v] else UserView(mem, cr3)
  {
    hide Walk, UserView;
    assert |mem| == GIB4;
    hide Sees;
    ViewOfWindow(mem, cr3, base);
    ViewOfWindow(r, cr3, base);
    hide InWindow;
    var u, u' := UserView(mem, cr3), UserView(r, cr3);
    assert forall a: int :: a in u' <==> a in u;
    forall a: int | a in u' && a != va ensures u'[a] == u[a] {
      assert r[a] == mem[a];
    }
    if InWindow(base, va) {
      assert va < 0x4000_0000 by { WindowBelowGib(base, va); }
      assert u' == u[va := v];
    } else {
      assert u' == u;
    }
  }

  lemma WindowBelowGib(base: u64, a: nat)
    requires InWindow(base, a)
    ensures a < 0x4000_0000
  {
  }

  // ---- A timer tick is invisible --------------------------------------------

  lemma FrameRoundTrip(c: Cpu, vector: u64, v: u64)
    ensures CpuOf(FrameOf(c, vector, 0)) == c
    ensures CpuOf(FrameOf(c, vector, 0)[RAX := v]) == c.(rax := v)
  {
  }

  /** The switch saves the running task, and what it resumes is what was saved or initial. */
  lemma SwitchKeepsCpus(k: KState, f: Quads, i: nat)
    requires WellFormed(k) && k.cur < k.ntasks && k.tasks[k.cur].started && i < k.ntasks
    ensures var k' := Preempted(k, f);
            && WellFormed(k') && k'.ntasks == k.ntasks && k'.cur < k.ntasks && |k'.tasks| == |k.tasks|
            && k'.tasks[k'.cur].started && k'.tasks[i].cr3 == k.tasks[i].cr3
            && NextCpu(k', i, CpuOf(k'.tasks[k'.cur].frame)) == NextCpu(k, i, CpuOf(f))
  {
    hide InitialFrame, CpuOf;
  }

  lemma TimerTransparent(g: Machine, i: nat)
    requires InRing3(g) && g.halted.None? && i < g.k.ntasks
    ensures var r := Interrupt(g, g.cpu, 32);
            && r.halted.None? && |r.k.tasks| == |g.k.tasks| && r.k.tasks[i].cr3 == g.k.tasks[i].cr3
            && r.k.tasks[r.k.cur].started && Project(r, i) == Project(g, i)
  {
    hide UserView, CpuOf, InitialFrame, Preempted;
    FrameRoundTrip(g.cpu, 32, 0);
    assert TaskCpu(g, g.k.cur) == g.cpu;
    var f := FrameOf(g.cpu, 32, 0);
    assert FromRing3(f) && f[VECTOR] == 32;
    hide FrameOf;
    if g.k.quantum + 1 >= QUANTUM_TICKS {
      SwitchKeepsCpus(g.k.(ticks := g.k.ticks + 1), f, i);
    } else {
      assert g.out[g.k.cur] + [] == g.out[g.k.cur];
      assert g.out[g.k.cur := g.out[g.k.cur]] == g.out;
    }
  }

  lemma TimerKeepsRing3(g: Machine)
    requires InRing3(g) && g.halted.None?
    ensures InRing3(Interrupt(g, g.cpu, 32))
  {
    var r := Interrupt(g, g.cpu, 32);
    forall i: nat | i < r.k.ntasks ensures TaskCpu(r, i).cs % 4 == 3 {
      hide UserView;
      TimerTransparent(g, i);
      assert TaskCpu(g, i).cs % 4 == 3;
      assert Project(r, i).cpu == Project(g, i).cpu;
    }
    TimerTransparent(g, 0);
  }

  // ---- An instruction is one step of its own task ---------------------------

  /** The frame of a system call as the dispatcher reads it, and what each answer resumes. */
  lemma SyscallFrame(c: Cpu)
    ensures var f := FrameOf(c, 128, 0);
            && f[RAX] == c.rax && f[RDI] == c.rdi && f[RSI] == c.rsi && f[RDX] == c.rdx && f[VECTOR] == 128
            && CpuOf(f[RAX := c.rdx]) == c.(rax := c.rdx) && CpuOf(f[RAX := MINUS_ONE]) == c.(rax := MINUS_ONE)
            && CpuOf(f[RAX := 0]) == c.(rax := 0)
  {
    FrameRoundTrip(c, 128, c.rdx);
    FrameRoundTrip(c, 128, MINUS_ONE);
    FrameRoundTrip(c, 128, 0);
  }

  /** The dispatcher's answer to a system call is what the task by itself expects. */
  lemma SyscallAnswer(c: Cpu, mem: seq<byte>, view: map<int, byte>, out: seq<byte>)
    requires OwnBuffer(c, view) && forall a | a in view :: 0 <= a < |mem| && view[a] == mem[a]
    ensures var s := Served(Alone(c, view, out, None), c);
            s.view == view &&
            match SyscallOutcome(FrameOf(c, 128, 0), mem)
            case Back(b, w) => s == Alone(CpuOf(b), view, out + w, None)
            case Ended(e) => s == Alone(c, view, out, Some(Ends(e)))
            case _ => false
  {
    SyscallFrame(c);
    hide CpuOf, FrameOf, InView, Taken;
    if c.rax == 1 && c.rdi == 1 && c.rsi != 0 {
      hide SyscallOutcome;
      WriteOutcome(FrameOf(c, 128, 0), mem, view);
    } else {
      assert out + [] == out;
    }
  }

  lemma ServedFrom(s: Alone, s': Alone, c: Cpu)
    requires s' == s.(cpu := s'.cpu) && OwnBuffer(c, s.view)
    ensures Served(s, c) == Served(s', c)
  {
  }

  lemma SyscallProjects(g: Machine, c: Cpu, view: map<int, byte>)
    requires Good(g) && g.halted.None? && OwnBuffer(c, view)
    requires forall a | a in view :: 0 <= a < |g.mem| && view[a] == g.mem[a]
    ensures var r := Interrupt(g, c, 128);
            var s := Served(Alone(g.cpu, view, g.out[g.k.cur], None), c);
            && r.k == g.k && r.cpu == s.cpu && s.view == view && r.out == g.out[g.k.cur := s.out]
            && StopOf(r, g.k.cur) == s.stop && r.halted != Some(Dead)
            && (r.halted.Some? ==> r.halted.value.idx == g.k.cur)
  {
    SyscallFrame(c);
    hide CpuOf, FrameOf, TickState, TickOutcome, SyscallOutcome, Served, OwnBuffer;
    var out := g.out[g.k.cur];
    ServedFrom(Alone(g.cpu, view, out, None), Alone(c, view, out, None), c);
    SyscallAnswer(c, g.mem, view, out);
  }

  lemma WriteOutcome(f: Quads, mem: seq<byte>, view: map<int, byte>)
    requires f[RAX] == 1 && f[RDI] == 1 && f[RSI] != 0 && InView(view, f[RSI], f[RDX])
    requires forall a | a in view :: 0 <= a < |mem| && view[a] == mem[a]
    ensures SyscallOutcome(f, mem) == Back(f[RAX := f[RDX]], Taken(view, f[RSI], f[RDX]))
  {
    var buf: nat, len: nat := f[RSI], f[RDX];
    if len > 0 {
      assert buf + len - 1 in view;
      assert mem[buf..buf + len] == Taken(view, buf, len);
    }
  }

  lemma FaultProjects(g: Machine, c: Cpu)
    requires Good(g) && c.cs % 4 == 3
    ensures Interrupt(g, c, 14) == g.(cpu := c, halted := Some(TaskEnd(g.k.cur, Faulted)))
  {
    var f := FrameOf(c, 14, 0);
    assert f[VECTOR] == 14 && f[CS] == c.cs;
  }

  /** Any other exception stops the machine and changes nothing else. */
  lemma TrapProjects(g: Machine, c: Cpu, vector: Exception)
    requires Good(g)
    ensures Interrupt(g, c, vector) == g.(halted := Some(Dead))
  {
    var f := FrameOf(c, vector, 0);
    assert f[VECTOR] == vector;
  }

  /** Only the running task's registers and output may differ. */
  lemma OthersUnmoved(g: Machine, r: Machine, j: nat)
    requires Good(g) && Good(r) && g.halted.None? && r.k == g.k && j < g.k.ntasks && j != g.k.cur
    requires r.out[j] == g.out[j] && UserView(r.mem, g.k.tasks[j].cr3) == UserView(g.mem, g.k.tasks[j].cr3)
    requires r.halted.Some? && r.halted.value.TaskEnd? ==> r.halted.value.idx == g.k.cur
    ensures Project(r, j) == Project(g, j)
  {
  }

  lemma KeepsRing3(g: Machine, r: Machine)
    requires InRing3(g) && Good(r) && r.k == g.k && r.cpu.cs % 4 == 3
    ensures InRing3(r)
  {
    forall i: nat | i < r.k.ntasks ensures TaskCpu(r, i).cs % 4 == 3 {
      if i != g.k.cur { assert TaskCpu(r, i) == TaskCpu(g, i); }
    }
  }

  lemma StoreProjects(boot: nat, bump: nat, spaces: seq<Space>, g: Machine, va: u64, v: byte, c: Cpu)
    requires Placed(boot, bump, spaces, g) && InRing3(g) && g.halted.None?
    requires UserWritable(g.mem, g.k.tasks[g.k.cur].cr3, va)
    ensures var r := g.(cpu := c, mem := UserStore(g.mem, g.k.tasks[g.k.cur].cr3, va, v));
            && Placed(boot, bump, spaces, r)
            && va in UserView(g.mem, g.k.tasks[g.k.cur].cr3)
            && UserView(r.mem, g.k.tasks[g.k.cur].cr3) == UserView(g.mem, g.k.tasks[g.k.cur].cr3)[va := v]
            && forall j | 0 <= j < |spaces| && j != g.k.cur :: UserView(r.mem, spaces[j].cr3) == UserView(g.mem, spaces[j].cr3)
  {
    hide Walk, UserView, UserWritable, UserStore, Inv;
    var w := World(g.mem, bump, spaces);
    var cur := g.k.cur;
    var m := UserStore(g.mem, spaces[cur].cr3, va, v);
    StoreKeepsInv(boot, w, cur, va, v);
    StoreEffect(boot, w, cur, va, v);
    SpaceSees(boot, w, cur);
    assert InWindow(spaces[cur].base, va) by { assert Walk(g.mem, spaces[cur].cr3, va) == Walk(g.mem, spaces[cur].cr3, va); }
    ViewOfWindow(g.mem, spaces[cur].cr3, spaces[cur].base);
    forall j | 0 <= j < |spaces|
      ensures UserView(m, spaces[j].cr3) ==
              if j == cur then UserView(g.mem, spaces[j].cr3)[va := v] else UserView(g.mem, spaces[j].cr3) {
      SpaceSees(boot, w, j);
      SpaceSees(boot, w.(m := m), j);
      StoreViews(g.mem, m, spaces[j].cr3, spaces[j].base, va, v);
    }
  }

  lemma StorableIsVisible(boot: nat, bump: nat, spaces: seq<Space>, g: Machine, va: u64)
    requires Placed(boot, bump, spaces, g) && InRing3(g)
    ensures UserWritable(g.mem, g.k.tasks[g.k.cur].cr3, va) <==> va in UserView(g.mem, g.k.tasks[g.k.cur].cr3)
  {
    hide Walk, UserView, UserWritable, Inv;
    var s := spaces[g.k.cur];
    SpaceSees(boot, World(g.mem, bump, spaces), g.k.cur);
    ViewOfWindow(g.mem, s.cr3, s.base);
    assert Walk(g.mem, s.cr3, va) == Walk(g.mem, s.cr3, va);
  }

  lemma ViewIsMemory(boot: nat, bump: nat, spaces: seq<Space>, g: Machine)
    requires Placed(boot, bump, spaces, g) && InRing3(g)
    ensures var view := UserView(g.mem, g.k.tasks[g.k.cur].cr3);
            forall a | a in view :: 0 <= a < |g.mem| && view[a] == g.mem[a]
  {
    hide Walk, UserView, UserWritable, Inv;
    var s := spaces[g.k.cur];
    SpaceSees(boot, World(g.mem, bump, spaces), g.k.cur);
    ViewOfWindow(g.mem, s.cr3, s.base);
  }

  /** The views of all tasks after the stores of the running one. */
  ghost predicate StoredViews(spaces: seq<Space>, cur: nat, mem: seq<byte>, m: seq<byte>, ws: seq<Write>)
  {
    forall j {:trigger spaces[j]} | 0 <= j < |spaces| ::
      UserView(m, spaces[j].cr3) == if j == cur then Updated(UserView(mem, spaces[j].cr3), ws) else UserView(mem, spaces[j].cr3)
  }

  lemma {:induction false} UpdatedKeys(view: map<int, byte>, ws: seq<Write>)
    requires AllIn(view, ws)
    ensures Updated(view, ws).Keys == view.Keys
  {
    if ws != [] {
      assert ws[|ws| - 1].va in view;
      UpdatedKeys(view, ws[..|ws| - 1]);
    }
  }

  /** Any number of stores by the running task: its own view follows them, no other view changes. */
  lemma {:induction false} StoresProject(boot: nat, bump: nat, spaces: seq<Space>, g: Machine, ws: seq<Write>)
    requires Placed(boot, bump, spaces, g) && InRing3(g) && g.halted.None?
    requires AllIn(UserView(g.mem, g.k.tasks[g.k.cur].cr3), ws)
    ensures var r := g.(mem := StoreAll(g.mem, g.k.tasks[g.k.cur].cr3, ws));
            Placed(boot, bump, spaces, r) && StoredViews(spaces, g.k.cur, g.mem, r.mem, ws)
    decreases ws
  {
    hide UserView, UserWritable, UserStore, Placed, Good, InWindow;
    if ws != [] {
      var pre := ws[..|ws| - 1];
      StoresProject(boot, bump, spaces, g, pre);
      StoresStep(boot, bump, spaces, g, ws);
    }
  }

  /** One more store after the stores before it. */
  lemma {:induction false} StoresStep(boot: nat, bump: nat, spaces: seq<Space>, g: Machine, ws: seq<Write>)
    requires Placed(boot, bump, spaces, g) && InRing3(g) && g.halted.None? && ws != []
    requires AllIn(UserView(g.mem, g.k.tasks[g.k.cur].cr3), ws)
    requires var h := g.(mem := StoreAll(g.mem, g.k.tasks[g.k.cur].cr3, ws[..|ws| - 1]));
             Placed(boot, bump, spaces, h) && StoredViews(spaces, g.k.cur, g.mem, h.mem, ws[..|ws| - 1])
    ensures var r := g.(mem := StoreAll(g.mem, g.k.tasks[g.k.cur].cr3, ws));
            Placed(boot, bump, spaces, r) && StoredViews(spaces, g.k.cur, g.mem, r.mem, ws)
  {
    hide UserView, UserWritable, UserStore, Inv, InWindow, StoreAll, Updated, Safe;
    var pre, w, cr3 := ws[..|ws| - 1], ws[|ws| - 1], g.k.tasks[g.k.cur].cr3;
    var h := g.(mem := StoreAll(g.mem, cr3, pre));
    assert spaces[g.k.cur].cr3 == cr3;
    var view := UserView(g.mem, cr3);
    assert UserView(h.mem, cr3) == Updated(view, pre);
    UpdatedKeys(view, pre);
    assert w.va in view;
    assert TaskCpu(g, g.k.cur) == g.cpu;
    KeepsRing3(g, h);
    StorableIsVisible(boot, bump, spaces, h, w.va);
    StoreProjects(boot, bump, spaces, h, w.va, w.v, h.cpu);
    LastStore(g.mem, cr3, ws);
    LastUpdate(view, ws);
    var m := StoreAll(g.mem, cr3, ws);
    assert h.(cpu := h.cpu, mem := m) == g.(mem := m);
    AfterLast(spaces, g.k.cur, g.mem, h.mem, m, ws);
  }

  lemma {:induction false} AfterLast(spaces: seq<Space>, cur: nat, mem: seq<byte>, h: seq<byte>, m: seq<byte>, ws: seq<Write>)
    requires ws != [] && cur < |spaces| && StoredViews(spaces, cur, mem, h, ws[..|ws| - 1])
    requires UserView(m, spaces[cur].cr3) == UserView(h, spaces[cur].cr3)[ws[|ws| - 1].va := ws[|ws| - 1].v]
    requires forall j {:trigger spaces[j]} | 0 <= j < |spaces| && j != cur :: UserView(m, spaces[j].cr3) == UserView(h, spaces[j].cr3)
    ensures StoredViews(spaces, cur, mem, m, ws)
  {
    hide UserView;
  }

  lemma {:induction false} LastUpdate(view: map<int, byte>, ws: seq<Write>)
    requires ws != []
    ensures Updated(view, ws) == Updated(view, ws[..|ws| - 1])[ws[|ws| - 1].va := ws[|ws| - 1].v]
  {
  }

  lemma {:induction false} LastStore(m: seq<byte>, cr3: nat, ws: seq<Write>)
    requires ws != []
    ensures StoreAll(m, cr3, ws) == UserStore(StoreAll(m, cr3, ws[..|ws| - 1]), cr3, ws[|ws| - 1].va, ws[|ws| - 1].v)
  {
    hide UserStore;
  }

  lemma {:induction false} WritableIsVisible(boot: nat, bump: nat, spaces: seq<Space>, g: Machine, ws: seq<Write>)
    requires Placed(boot, bump, spaces, g) && InRing3(g)
    ensures AllWritable(g.mem, g.k.tasks[g.k.cur].cr3, ws) <==> AllIn(UserView(g.mem, g.k.tasks[g.k.cur].cr3), ws)
  {
    hide UserView, UserWritable, Walk, Inv, InWindow;
    forall i | 0 <= i < |ws|
      ensures UserWritable(g.mem, g.k.tasks[g.k.cur].cr3, ws[i].va) <==> ws[i].va in UserView(g.mem, g.k.tasks[g.k.cur].cr3) {
      StorableIsVisible(boot, bump, spaces, g, ws[i].va);
    }
  }

  lemma ExecProjects(isa: Isa, boot: nat, bump: nat, spaces: seq<Space>, g: Machine)
    requires Placed(boot, bump, spaces, g) && InRing3(g) && g.halted.None? && StaysInRing3(isa)
    requires Polite(isa, Project(g, g.k.cur))
    ensures var r := ExecStep(isa, g);
            && Placed(boot, bump, spaces, r) && InRing3(r) && r.k == g.k
            && Project(r, g.k.cur) == AloneStep(isa, Project(g, g.k.cur))
            && forall j: nat {:trigger Project(r, j)} | j < g.k.ntasks && j != g.k.cur :: Project(r, j) == Project(g, j)
  {
    var cur := g.k.cur;
    var cr3 := g.k.tasks[cur].cr3;
    var view := UserView(g.mem, cr3);
    var r := ExecStep(isa, g);
    assert TaskCpu(g, cur) == g.cpu && g.cpu.cs % 4 == 3;
    hide UserView, UserWritable, StoreAll, AllWritable, AllIn, Updated, Inv, InWindow;
    var act := isa(g.cpu, view);
    var c := act.next;
    assert c.cs % 4 == 3;
    match act
    case Compute(_) =>
      KeepsRing3(g, r);
    case Stores(ws, _) =>
      WritableIsVisible(boot, bump, spaces, g, ws);
      if AllIn(view, ws) {
        StoresProject(boot, bump, spaces, g, ws);
        assert spaces[cur].cr3 == cr3;
      } else {
        FaultProjects(g, c);
      }
      KeepsRing3(g, r);
    case Int80(_) =>
      ViewIsMemory(boot, bump, spaces, g);
      SyscallProjects(g, c, view);
      KeepsRing3(g, r);
    case PageFault(_) =>
      FaultProjects(g, c);
      KeepsRing3(g, r);
    case Trap(vector, _) =>
      TrapProjects(g, c, vector);
      KeepsRing3(g, r);
    forall j: nat | j < g.k.ntasks && j != cur ensures Project(r, j) == Project(g, j) {
      assert spaces[j].cr3 == g.k.tasks[j].cr3;
      OthersUnmoved(g, r, j);
    }
  }

  /** The state the launch of resident tasks leaves: one running, the others still to be set up. */
  lemma LaunchInRing3(g: Machine, i: nat)
    requires Good(g) && g.halted.None? && g.k.tasks[g.k.cur].started && g.cpu.cs == SEL_USER_CODE
    requires forall j | 0 <= j < g.k.ntasks && j != g.k.cur :: !g.k.tasks[j].started
    ensures InRing3(g)
    ensures i < g.k.ntasks && i != g.k.cur ==>
              Project(g, i).cpu == Untouched(g.k.entry[i], g.k.stktop[i])
              && Project(g, i).cpu == Cpu(0, 0, 0, 0, 0, 0, 0, 0, 0, 0, 0, 0, 0, 0, 0, g.k.entry[i], 0x1B, 0x202, g.k.stktop[i], 0x23)
  {
    hide CpuOf, InitialFrame, UserView;
    forall j: nat | j < g.k.ntasks ensures TaskCpu(g, j).cs % 4 == 3 {
      FirstFrame(g.k.entry[j], g.k.stktop[j]);
    }
    if i < g.k.ntasks { FirstFrame(g.k.entry[i], g.k.stktop[i]); }
  }

  // ---- Whole runs -----------------------------------------------------------

  /** Every task, run alone from where it is now, keeps its write buffers in its own pages. */
  ghost predicate AllPolite(isa: Isa, g: Machine)
    requires Good(g)
  {
    forall i: nat, n: nat {:trigger AloneRun(isa, Project(g, i), n)} | i < g.k.ntasks :: Polite(isa, AloneRun(isa, Project(g, i), n))
  }

  ghost predicate Follows(isa: Isa, boot: nat, bump: nat, spaces: seq<Space>, g: Machine, es: seq<Ev>, r: Machine)
    requires Good(g) && Good(r) && r.k.ntasks == g.k.ntasks
  {
    && Placed(boot, bump, spaces, r) && InRing3(r)
    && forall i: nat {:trigger Project(r, i)} | i < g.k.ntasks :: Project(r, i) == AloneRun(isa, Project(g, i), Count(isa, g, es, Exec, i))
  }

  /**
   Transparent preemption: whatever the tick times, every task's registers, memory, output and
   stop are exactly those of the task alone after as many instructions as it was given. An exception
   that stops the machine is one that the current task meets alone, too.
   */
  lemma {:induction false} TransparentPreemption(isa: Isa, boot: nat, bump: nat, spaces: seq<Space>, g: Machine, es: seq<Ev>)
    requires Placed(boot, bump, spaces, g) && InRing3(g) && g.halted.None? && StaysInRing3(isa) && AllPolite(isa, g)
    ensures Follows(isa, boot, bump, spaces, g, es, MachineRun(isa, g, es))
  {
    if es == [] {
      forall i: nat | i < g.k.ntasks ensures Project(g, i) == AloneRun(isa, Project(g, i), Count(isa, g, es, Exec, i)) { }
    } else {
      var pre, e := es[..|es| - 1], es[|es| - 1];
      TransparentPreemption(isa, boot, bump, spaces, g, pre);
      var h := MachineRun(isa, g, pre);
      StepFollows(isa, boot, bump, spaces, g, es, h);
    }
  }

  lemma StepFollows(isa: Isa, boot: nat, bump: nat, spaces: seq<Space>, g: Machine, es: seq<Ev>, h: Machine)
    requires Good(g) && StaysInRing3(isa) && AllPolite(isa, g) && es != []
    requires h == MachineRun(isa, g, es[..|es| - 1]) && Follows(isa, boot, bump, spaces, g, es[..|es| - 1], h)
    ensures Follows(isa, boot, bump, spaces, g, es, MachineRun(isa, g, es))
  {
    hide Placed, InRing3, UserView, Project, AloneStep, Polite, Interrupt, ExecStep;
    var pre, e := es[..|es| - 1], es[|es| - 1];
    var r := MachineRun(isa, g, es);
    assert r == MachineStep(isa, h, e);
    if h.halted.None? {
      var cur := h.k.cur;
      if e.Exec? {
        assert Project(h, cur) == AloneRun(isa, Project(g, cur), Count(isa, g, pre, Exec, cur));
        ExecProjects(isa, boot, bump, spaces, h);
      } else {
        TimerStep(boot, bump, spaces, h);
      }
    }
    forall i: nat | i < g.k.ntasks
      ensures Project(r, i) == AloneRun(isa, Project(g, i), Count(isa, g, es, Exec, i)) {
      assert Project(h, i) == AloneRun(isa, Project(g, i), Count(isa, g, pre, Exec, i));
    }
  }

  lemma TimerStep(boot: nat, bump: nat, spaces: seq<Space>, h: Machine)
    requires Placed(boot, bump, spaces, h) && InRing3(h) && h.halted.None?
    ensures var r := Interrupt(h, h.cpu, 32);
            && Placed(boot, bump, spaces, r) && InRing3(r)
            && forall i: nat {:trigger Project(r, i)} | i < h.k.ntasks :: Project(r, i) == Project(h, i)
  {
    hide Inv, UserView;
    var r := Interrupt(h, h.cpu, 32);
    TimerKeepsRing3(h);
    TimerTransparent(h, 0);
    assert |r.k.tasks| == |h.k.tasks|;
    forall i: nat | i < h.k.ntasks ensures Project(r, i) == Project(h, i) && r.k.tasks[i].cr3 == h.k.tasks[i].cr3 {
      TimerTransparent(h, i);
    }
  }

  /** A run that has stopped at a task's end stopped with that task current. */
  lemma {:induction false} EndIsCurrent(isa: Isa, g: Machine, es: seq<Ev>)
    requires Good(g) && g.halted.None?
    ensures var r := MachineRun(isa, g, es);
            r.halted.Some? && r.halted.value.TaskEnd? ==> r.halted.value.idx == r.k.cur
  {
    if es != [] {
      EndIsCurrent(isa, g, es[..|es| - 1]);
      var h := MachineRun(isa, g, es[..|es| - 1]);
      hide MachineRun, UserView, StoreAll, AllWritable, CpuOf, SyscallOutcome, Preempted;
      assert MachineRun(isa, g, es) == MachineStep(isa, h, es[|es| - 1]) by { RunStep(isa, g, es, 0); }
      if h.halted.None? {
        EndHere(h, h.cpu, 32);
        var act := isa(h.cpu, UserView(h.mem, h.k.tasks[h.k.cur].cr3));
        EndHere(h, act.next, 14);
        EndHere(h, act.next, 128);
        if act.Trap? { EndHere(h, act.next, act.vector); }
      }
    }
  }

  lemma EndHere(h: Machine, c: Cpu, vector: u64)
    requires Good(h) && h.halted.None?
    ensures var r := Interrupt(h, c, vector);
            r.halted.Some? && r.halted.value.TaskEnd? ==> r.halted.value.idx == r.k.cur
  {
    hide CpuOf, Preempted, SyscallOutcome;
    assert FrameOf(c, vector, 0)[VECTOR] == vector;
  }

  /** The machine after the kernel has put the given task back. */
  ghost function Resumed(r: Machine, i: nat): (q: Machine)
    requires Good(r) && i < r.k.ntasks
    ensures Good(q) && q.k.ntasks == r.k.ntasks
  {
    var k := Marked(r.k, i).(cur := i);
    r.(k := k, cpu := CpuOf(k.tasks[i].frame), halted := None)
  }

  /** At the first end the other task of a pair resumes exactly where its own run stands: registers, memory and output. */
  lemma SurvivorResumes(isa: Isa, boot: nat, bump: nat, spaces: seq<Space>, g: Machine, es: seq<Ev>)
    requires Placed(boot, bump, spaces, g) && InRing3(g) && g.halted.None? && StaysInRing3(isa) && AllPolite(isa, g)
    requires g.k.ntasks == |g.k.tasks| == 2
    requires var r := MachineRun(isa, g, es); r.halted.Some? && r.halted.value.TaskEnd?
    ensures var r := MachineRun(isa, g, es);
            var other := 1 - r.halted.value.idx;
            0 <= other < 2 && Project(Resumed(r, other), other) == AloneRun(isa, Project(g, other), Count(isa, g, es, Exec, other))
  {
    hide Placed, InRing3, AllPolite, StaysInRing3, AloneRun, Project, MachineRun, Count, Resumed, Follows, Good;
    Ring3IsGood(g);
    TransparentPreemption(isa, boot, bump, spaces, g, es);
    EndIsCurrent(isa, g, es);
    OtherResumes(isa, boot, bump, spaces, g, es, MachineRun(isa, g, es));
  }

  lemma Ring3IsGood(g: Machine)
    requires InRing3(g)
    ensures Good(g)
  {
  }

  lemma OtherResumes(isa: Isa, boot: nat, bump: nat, spaces: seq<Space>, g: Machine, es: seq<Ev>, r: Machine)
    requires Good(g) && Good(r) && g.k.ntasks == |g.k.tasks| == r.k.ntasks == 2
    requires r.halted.Some? && r.halted.value.TaskEnd? && r.halted.value.idx == r.k.cur
    requires Follows(isa, boot, bump, spaces, g, es, r)
    ensures var other := 1 - r.halted.value.idx;
            0 <= other < 2 && Project(Resumed(r, other), other) == AloneRun(isa, Project(g, other), Count(isa, g, es, Exec, other))
  {
    hide Placed, InRing3, AloneRun, Project, Count, Resumed;
    var other := 1 - r.k.cur;
    assert Project(r, other) == AloneRun(isa, Project(g, other), Count(isa, g, es, Exec, other));
    ResumeProjects(r, other);
  }

  /** Putting a waiting task back changes nothing in its projection. */
  lemma ResumeProjects(r: Machine, i: nat)
    requires Good(r) && i < r.k.ntasks && i != r.k.cur
    requires r.halted.Some? && r.halted.value.TaskEnd? && r.halted.value.idx == r.k.cur
    ensures Project(Resumed(r, i), i) == Project(r, i)
  {
    hide UserView, CpuOf, InitialFrame;
  }

  // ---- Scheduling accounts --------------------------------------------------

  /** One more time slice: the next task in the circle, or a new round. */
  lemma NextTurn(p: nat, n: nat)
    requires n > 0
    ensures (p + 1) % n == (p % n + 1) % n
    ensures (p + 1) / n == if p % n == n - 1 then p / n + 1 else p / n
  {
    var q, r := p / n, p % n;
    assert p == n * q + r;
    if r == n - 1 {
      assert p + 1 == n * (q + 1) by { Distribute(n, q); }
      DivisionIsUnique(p + 1, n, q + 1, 0);
      assert (r + 1) % n == 0 by { DivisionIsUnique(n, n, 1, 0); }
    } else {
      DivisionIsUnique(p + 1, n, q, r + 1);
      DivisionIsUnique(r + 1, n, 0, r + 1);
    }
  }

  lemma Distribute(n: nat, q: nat)
    ensures n * (q + 1) == n * q + n
  {
  }

  lemma DivisionIsUnique(x: nat, n: nat, q: nat, r: nat)
    requires n > 0 && r < n && x == n * q + r
    ensures x / n == q && x % n == r
  {
    var q', r' := x / n, x % n;
    assert x == n * q' + r';
    if q' < q {
      assert n * q >= n * (q' + 1) by { Monotone(n, q' + 1, q); }
      Distribute(n, q');
    } else if q < q' {
      assert n * q' >= n * (q + 1) by { Monotone(n, q + 1, q'); }
      Distribute(n, q);
    }
  }

  lemma Monotone(n: nat, a: nat, b: nat)
    requires a <= b
    ensures n * a <= n * b
  {
  }

  /** The whole slices task i has had after p preemptions among n tasks. */
  function Slices(p: nat, n: nat, i: nat): nat
    requires n > 0
  {
    p / n + (if i < p % n then 1 else 0)
  }

  /** A preemption completes a slice of the task whose turn it was. */
  lemma SlicesStep(p: nat, n: nat, i: nat)
    requires i < n
    ensures Slices(p + 1, n, i) == Slices(p, n, i) + (if i == p % n then 1 else 0)
  {
    NextTurn(p, n);
    var r := p % n;
    assert r < n;
    if r == n - 1 {
      assert (p + 1) % n == 0 by { DivisionIsUnique(n, n, 1, 0); }
    } else {
      assert (p + 1) % n == r + 1 by { DivisionIsUnique(r + 1, n, 0, r + 1); }
    }
  }

  function Turn(p: nat, n: nat): nat
    requires n > 0
  {
    p % n
  }

  /** The clock since g: preemptions, the running slice, and whose turn it is. */
  ghost predicate Clock(g: Machine, r: Machine)
    requires Good(g) && Good(r)
  {
    var p := r.k.preempts - g.k.preempts;
    && p >= 0 && r.k.quantum < 3 && r.k.ntasks == g.k.ntasks
    && 3 * p + r.k.quantum == r.k.ticks - g.k.ticks
    && r.k.cur == Turn(p, g.k.ntasks)
  }

  /** The ticks task i should have been charged when the machine has come from g to r. */
  ghost function Due(g: Machine, r: Machine, i: nat): int
    requires Good(g) && Good(r) && Clock(g, r)
  {
    3 * Slices(r.k.preempts - g.k.preempts, g.k.ntasks, i) + (if i == r.k.cur then r.k.quantum else 0)
  }

  /** The books: total ticks, whose turn it is, and the ticks charged to each task. */
  ghost predicate Accounts(isa: Isa, g: Machine, es: seq<Ev>)
    requires Good(g)
  {
    var r := MachineRun(isa, g, es);
    Clock(g, r) && forall i: nat {:trigger Count(isa, g, es, Timer, i)} | i < g.k.ntasks :: Count(isa, g, es, Timer, i) == Due(g, r, i)
  }

  /** The registers a system call or a fault leaves are still those of ring 3. */
  lemma InterruptStaysInRing3(g: Machine, c: Cpu, vector: u64)
    requires Good(g) && c.cs % 4 == 3 && g.cpu.cs % 4 == 3 && (vector < 32 || vector == 128)
    ensures Interrupt(g, c, vector).cpu.cs % 4 == 3 && Interrupt(g, c, vector).k == g.k
  {
    if vector == 128 {
      SyscallFrame(c);
    } else if vector == 14 {
      FaultProjects(g, c);
    } else {
      TrapProjects(g, c, vector);
    }
  }

  lemma ExecStaysInRing3(isa: Isa, g: Machine)
    requires InRing3(g) && g.halted.None? && StaysInRing3(isa)
    ensures InRing3(ExecStep(isa, g)) && ExecStep(isa, g).k == g.k
  {
    hide UserView, UserWritable, StoreAll, Interrupt;
    assert TaskCpu(g, g.k.cur) == g.cpu;
    var r := ExecStep(isa, g);
    var act := isa(g.cpu, UserView(g.mem, g.k.tasks[g.k.cur].cr3));
    assert act.next.cs % 4 == 3;
    InterruptStaysInRing3(g, act.next, 14);
    InterruptStaysInRing3(g, act.next, 128);
    if act.Trap? { InterruptStaysInRing3(g, act.next, act.vector); }
    forall i: nat | i < r.k.ntasks ensures TaskCpu(r, i).cs % 4 == 3 {
      if i != g.k.cur { assert TaskCpu(r, i) == TaskCpu(g, i); }
    }
  }

  lemma {:induction false} RunStaysInRing3(isa: Isa, g: Machine, es: seq<Ev>)
    requires InRing3(g) && StaysInRing3(isa)
    ensures InRing3(MachineRun(isa, g, es))
  {
    hide Interrupt, ExecStep, StaysInRing3;
    if es != [] {
      RunStaysInRing3(isa, g, es[..|es| - 1]);
      var h := MachineRun(isa, g, es[..|es| - 1]);
      if h.halted.None? {
        TimerKeepsRing3(h);
        ExecStaysInRing3(isa, h);
      }
    }
  }

  /** The books balance in every run, whatever the tasks write and wherever their windows lie. */
  lemma {:induction false} AccountsBalance(isa: Isa, g: Machine, es: seq<Ev>)
    requires InRing3(g) && g.halted.None? && StaysInRing3(isa)
    requires g.k.cur == 0 && g.k.quantum == 0
    ensures Accounts(isa, g, es)
  {
    if es == [] {
      DivisionIsUnique(0, g.k.ntasks, 0, 0);
    } else {
      hide StaysInRing3, MachineRun, Accounts;
      var pre := es[..|es| - 1];
      AccountsBalance(isa, g, pre);
      RunStaysInRing3(isa, g, pre);
      AccountsStep(isa, g, es, MachineRun(isa, g, pre));
    }
  }

  lemma RunStep(isa: Isa, g: Machine, es: seq<Ev>, i: nat)
    requires Good(g) && es != []
    ensures var pre, e := es[..|es| - 1], es[|es| - 1];
            var h := MachineRun(isa, g, pre);
            && MachineRun(isa, g, es) == MachineStep(isa, h, e)
            && Count(isa, g, es, Timer, i) == Count(isa, g, pre, Timer, i) + (if h.halted.None? && e.Timer? && h.k.cur == i then 1 else 0)
  {
    hide MachineStep;
  }

  /** A tick moves the clock on, and its own task's due by one. */
  lemma ClockTick(g: Machine, h: Machine, i: nat)
    requires Good(g) && InRing3(h) && h.halted.None? && Clock(g, h) && i < g.k.ntasks
    ensures var r := Interrupt(h, h.cpu, 32);
            Clock(g, r) && Due(g, r, i) == Due(g, h, i) + (if i == h.k.cur then 1 else 0)
  {
    hide Interrupt, Slices, Turn, WellFormed;
    TimerAccounts(h);
    var p, n := h.k.preempts - g.k.preempts, g.k.ntasks;
    TurnAfter(p, n);
    SliceAfter(p, n, i);
  }

  lemma AccountsOfTask(isa: Isa, g: Machine, es: seq<Ev>, h: Machine, i: nat)
    requires Good(g) && es != [] && h == MachineRun(isa, g, es[..|es| - 1]) && InRing3(h) && i < g.k.ntasks
    requires Clock(g, h) && Count(isa, g, es[..|es| - 1], Timer, i) == Due(g, h, i)
    ensures var r := MachineRun(isa, g, es);
            Clock(g, r) && Count(isa, g, es, Timer, i) == Due(g, r, i)
  {
    hide MachineRun, Count, InRing3, Interrupt, ExecStep, Due, WellFormed, Clock;
    RunStep(isa, g, es, i);
    if h.halted.None? && es[|es| - 1].Timer? {
      ClockTick(g, h, i);
    } else if h.halted.None? {
      ExecAccounts(isa, h);
      SameDue(g, h, MachineRun(isa, g, es), i);
    }
  }

  lemma AccountsStep(isa: Isa, g: Machine, es: seq<Ev>, h: Machine)
    requires Good(g) && es != [] && h == MachineRun(isa, g, es[..|es| - 1]) && InRing3(h)
    requires Accounts(isa, g, es[..|es| - 1])
    ensures Accounts(isa, g, es)
  {
    hide MachineRun, Count, InRing3, Due, WellFormed, Clock;
    var pre, r := es[..|es| - 1], MachineRun(isa, g, es);
    assert Count(isa, g, pre, Timer, g.k.cur) == Due(g, h, g.k.cur);
    AccountsOfTask(isa, g, es, h, g.k.cur);
    forall i: nat | i < g.k.ntasks ensures Count(isa, g, es, Timer, i) == Due(g, r, i) {
      assert Count(isa, g, pre, Timer, i) == Due(g, h, i);
      AccountsOfTask(isa, g, es, h, i);
    }
  }

  lemma SameDue(g: Machine, h: Machine, r: Machine, i: nat)
    requires Good(g) && Good(h) && Good(r) && Clock(g, h) && r.k == h.k
    ensures Clock(g, r) && Due(g, r, i) == Due(g, h, i)
  {
  }

  lemma TurnAfter(p: nat, n: nat)
    requires n > 0
    ensures Turn(p + 1, n) == (Turn(p, n) + 1) % n
  {
    NextTurn(p, n);
  }

  lemma SliceAfter(p: nat, n: nat, i: nat)
    requires i < n
    ensures Slices(p + 1, n, i) == Slices(p, n, i) + (if i == Turn(p, n) then 1 else 0)
  {
    SlicesStep(p, n, i);
  }

  lemma TimerAccounts(h: Machine)
    requires InRing3(h) && h.halted.None?
    ensures var r := Interrupt(h, h.cpu, 32);
            && r.halted.None? && r.k.ticks == h.k.ticks + 1
            && if h.k.quantum + 1 >= QUANTUM_TICKS
               then r.k.quantum == 0 && r.k.preempts == h.k.preempts + 1 && r.k.cur == (h.k.cur + 1) % h.k.ntasks
               else r.k.quantum == h.k.quantum + 1 && r.k.preempts == h.k.preempts && r.k.cur == h.k.cur
  {
    hide CpuOf, InitialFrame;
    assert TaskCpu(h, h.k.cur) == h.cpu;
    assert FromRing3(FrameOf(h.cpu, 32, 0)) && FrameOf(h.cpu, 32, 0)[VECTOR] == 32;
  }

  lemma ExecAccounts(isa: Isa, h: Machine)
    requires Good(h)
    ensures ExecStep(isa, h).k == h.k
  {
    hide CpuOf, UserView, UserStore, UserWritable, TickState, TickOutcome, SyscallOutcome;
  }

  /** Fairness: two resident tasks never differ by more than one slice in the ticks charged. */
  lemma Fairness(isa: Isa, g: Machine, es: seq<Ev>, i: nat, j: nat)
    requires InRing3(g) && g.halted.None? && StaysInRing3(isa)
    requires g.k.cur == 0 && g.k.quantum == 0 && i < g.k.ntasks && j < g.k.ntasks
    ensures Count(isa, g, es, Timer, i) <= Count(isa, g, es, Timer, j) + 3
  {
    hide StaysInRing3, MachineRun, Count;
    AccountsBalance(isa, g, es);
    var r := MachineRun(isa, g, es);
    assert Count(isa, g, es, Timer, i) == Due(g, r, i) && Count(isa, g, es, Timer, j) == Due(g, r, j);
  }
}
