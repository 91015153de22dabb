/**
 The interrupt dispatcher: round-robin preemption on timer ticks, the three system calls, and the
 end of a task. KState is the abstract value of the kernel's scheduling globals; the class below
 updates the globals themselves.
 */
module Sched {
  import opened Bytes
  import opened Frames

  const QUANTUM_TICKS: nat := 3
  const SEL_USER_CODE: u64 := 0x1B
  const SEL_USER_DATA: u64 := 0x23
  const MINUS_ONE: u64 := 0xFFFF_FFFF_FFFF_FFFF

  datatype Tcb = Tcb(frame: Quads, cr3: nat, started: bool)

  datatype KState = KState(
    tasks: seq<Tcb>, entry: seq<u64>, stktop: seq<u64>,
    ntasks: nat, cur: nat, quantum: nat, preempts: nat, ticks: nat)

  datatype End = Exited(code: u64) | Faulted

  /** How the dispatcher is left. */
  datatype Outcome =
    | Back(frame: Quads, written: seq<byte>)  // return through the interrupted frame
    | Switch(frame: Quads, cr3: nat)          // resume another task
    | Ended(end: End)                         // jump back to the kernel's await point
    | Panic                                   // the exception screen, for good

  ghost predicate WellFormed(k: KState)
  {
    |k.entry| == |k.tasks| && |k.stktop| == |k.tasks| && k.ntasks <= |k.tasks| && k.cur < |k.tasks|
  }

  predicate FromRing3(f: Quads) { f[CS] % 4 == 3 }

  /** The frame a task gets before its first dispatch. */
  function InitialFrame(entry: u64, stktop: u64): Quads
  {
    seq(22, _ => 0 as u64)[RIP := entry][RSP := stktop][CS := SEL_USER_CODE][SS := SEL_USER_DATA][RFLAGS := 0x202]
  }

  /** A task dispatched for the first time starts with this frame, quad by quad, and so with these registers. */
  lemma FirstFrame(entry: u64, stktop: u64)
    ensures InitialFrame(entry, stktop) == [0, 0, 0, 0, 0, 0, 0, 0, 0, 0, 0, 0, 0, 0, 0, 0, 0, entry, 0x1B, 0x202, stktop, 0x23]
    ensures CpuOf(InitialFrame(entry, stktop)) == Untouched(entry, stktop)
  {
    var f := InitialFrame(entry, stktop);
    assert f[CS] == 0x1B && f[SS] == 0x23 && f[RFLAGS] == 0x202 && f[RIP] == entry && f[RSP] == stktop;
  }

  /** The tick that ends a slice hands the processor to a task that has never run with exactly those registers. */
  lemma FirstDispatch(k: KState, f: Quads)
    requires WellFormed(k) && k.ntasks > 0 && FromRing3(f) && k.quantum >= 2
    requires var next := (k.cur + 1) % k.ntasks; !k.tasks[next].started && next != k.cur
    ensures var next, o := (k.cur + 1) % k.ntasks, TickOutcome(k, f);
            o.Switch? && o.cr3 == k.tasks[next].cr3 && CpuOf(o.frame) == Untouched(k.entry[next], k.stktop[next])
  {
    hide InitialFrame, CpuOf;
    FirstFrame(k.entry[(k.cur + 1) % k.ntasks], k.stktop[(k.cur + 1) % k.ntasks]);
  }

  function Marked(k: KState, i: nat): KState
    requires WellFormed(k) && i < |k.tasks|
  {
    if k.tasks[i].started then k
    else k.(tasks := k.tasks[i := k.tasks[i].(frame := InitialFrame(k.entry[i], k.stktop[i]), started := true)])
  }

  /** The task switch at the end of a time slice. */
  function Preempted(k: KState, f: Quads): KState
    requires WellFormed(k) && k.ntasks > 0
  {
    var saved := k.(quantum := 0, preempts := k.preempts + 1, tasks := k.tasks[k.cur := k.tasks[k.cur].(frame := f)]);
    var next := (k.cur + 1) % k.ntasks;
    Marked(saved, next).(cur := next)
  }

  function TickState(k: KState, f: Quads): KState
    requires WellFormed(k)
  {
    var k1 := k.(ticks := k.ticks + 1);
    if k.ntasks > 0 && FromRing3(f) then
      if k.quantum + 1 >= QUANTUM_TICKS then Preempted(k1, f) else k1.(quantum := k.quantum + 1)
    else k1
  }

  function TickOutcome(k: KState, f: Quads): Outcome
    requires WellFormed(k)
  {
    if k.ntasks > 0 && FromRing3(f) && k.quantum + 1 >= QUANTUM_TICKS then
      var k' := TickState(k, f);
      Switch(k'.tasks[k'.cur].frame, k'.tasks[k'.cur].cr3)
    else Back(f, [])
  }

  /** System call by number; mem is what the kernel reads through its identity map. */
  function SyscallOutcome(f: Quads, mem: seq<byte>): Outcome
  {
    if f[RAX] == 1 then
      if f[RDI] != 1 || f[RSI] == 0 then Back(f[RAX := MINUS_ONE], [])
      else if f[RDX] == 0 then Back(f[RAX := 0], [])
      else
        var buf, len: nat := f[RSI], f[RDX];
        if buf + len <= |mem| then Back(f[RAX := f[RDX]], mem[buf..buf + len]) else Panic
    else if f[RAX] == 2 then Ended(Exited(f[RDI]))
    else if f[RAX] == 3 then Back(f[RAX := 0], [])
    else Back(f[RAX := MINUS_ONE], [])
  }

  /** A byte as the serial port gets it: a newline is preceded by a carriage return. */
  function WireByte(c: byte): seq<byte> { if c == 10 then [13, 10] else [c] }

  function Wire(s: seq<byte>): seq<byte>
  {
    if s == [] then [] else Wire(s[..|s| - 1]) + WireByte(s[|s| - 1])
  }

  /** On the wire a newline is a carriage return and a newline, and every other byte is itself. */
  lemma WireOneMore(s: seq<byte>, c: byte)
    ensures Wire(s + [c]) == Wire(s) + (if c == 10 then [13, 10] else [c])
  {
    assert (s + [c])[..|s|] == s;
  }

  lemma SendNothing() ensures Wire([]) == [] { }

  /** What is sent determines what was written, for text without carriage returns of its own. */
  lemma {:induction false} WireUndone(s: seq<byte>)
    requires 13 !in s
    ensures Unwire(Wire(s)) == s
  {
    hide Unwire, WireByte;
    if s == [] {
      UnwireNothing();
    } else {
      var pre, c := s[..|s| - 1], s[|s| - 1];
      WireUndone(pre);
      UnwireConcat(Wire(pre), WireByte(c));
      UnwireByte(c);
      assert s == pre + [c];
    }
  }

  lemma UnwireNothing() ensures Unwire([]) == [] { }

  lemma UnwireByte(c: byte)
    requires c != 13
    ensures Unwire(WireByte(c)) == [c]
  {
    var t := WireByte(c);
    assert t[..|t| - 1] == if c == 10 then [13] else [];
    assert [13][..0] == [];
    assert Unwire([13]) == [];
  }

  /** The receiving side drops carriage returns. */
  function Unwire(s: seq<byte>): seq<byte>
  {
    if s == [] then [] else Unwire(s[..|s| - 1]) + (if s[|s| - 1] == 13 then [] else [s[|s| - 1]])
  }

  lemma {:induction false} UnwireConcat(a: seq<byte>, b: seq<byte>)
    ensures Unwire(a + b) == Unwire(a) + Unwire(b)
    decreases b
  {
    if b == [] {
      assert a + b == a;
    } else {
      UnwireConcat(a, b[..|b| - 1]);
      assert (a + b)[..|a + b| - 1] == a + b[..|b| - 1];
    }
  }

  function DispatchState(k: KState, f: Quads): KState
    requires WellFormed(k)
  {
    if f[VECTOR] == 32 then TickState(k, f) else k
  }

  function DispatchOutcome(k: KState, f: Quads, mem: seq<byte>): Outcome
    requires WellFormed(k)
  {
    if f[VECTOR] == 32 then TickOutcome(k, f)
    else if f[VECTOR] == 128 then SyscallOutcome(f, mem)
    else if f[VECTOR] == 14 && FromRing3(f) then Ended(Faulted)
    else Panic
  }

  /** Kernel code is never preempted, and its own page fault stops the machine. */
  lemma KernelUndisturbed(k: KState, c: Cpu, error: u64, mem: seq<byte>)
    requires WellFormed(k) && c.cs % 4 != 3
    ensures var f := FrameOf(c, 32, error);
            DispatchOutcome(k, f, mem) == Back(f, []) && DispatchState(k, f) == k.(ticks := k.ticks + 1)
    ensures var f := FrameOf(c, 14, error);
            DispatchOutcome(k, f, mem) == Panic && DispatchState(k, f) == k
  {
    assert FrameOf(c, 32, error)[CS] == c.cs && FrameOf(c, 14, error)[CS] == c.cs;
    assert FrameOf(c, 32, error)[VECTOR] == 32 && FrameOf(c, 14, error)[VECTOR] == 14;
  }

  /** The scheduling globals. */
  class Scheduler {
    const tasks: array<Tcb>
    const entry: array<u64>
    const stktop: array<u64>
    var ntasks: nat
    var cur: nat
    var quantum: nat
    var preempts: nat
    var ticks: nat
    var endIdx: nat
    var serial: seq<byte>  // what write calls have sent; the kernel's own messages are not recorded

    ghost predicate Valid()
      reads this, tasks, entry, stktop
    {
      && entry != stktop && WellFormed(State())
    }

    ghost function State(): KState
      reads this, tasks, entry, stktop
    {
      KState(tasks[..], entry[..], stktop[..], ntasks, cur, quantum, preempts, ticks)
    }

    constructor (tasks: array<Tcb>, entry: array<u64>, stktop: array<u64>)
      requires entry != stktop && entry.Length == stktop.Length == tasks.Length > 0
      ensures Valid() && this.tasks == tasks && this.entry == entry && this.stktop == stktop
      ensures ntasks == cur == quantum == preempts == ticks == 0
    {
      this.tasks, this.entry, this.stktop := tasks, entry, stktop;
      ntasks, cur, quantum, preempts, ticks, endIdx, serial := 0, 0, 0, 0, 0, 0, [];
    }

    /** Prepares the first dispatch; a task that has started keeps its snapshot. */
    method MarkStart(i: nat)
      requires Valid() && i < tasks.Length
      modifies tasks
      ensures State() == Marked(old(State()), i)
      ensures old(tasks[i].started) ==> tasks[..] == old(tasks[..])
      ensures !old(tasks[i].started) ==> tasks[i].frame == seq(17, _ => 0) + [entry[i], 0x1B, 0x202, stktop[i], 0x23]
    {
      if tasks[i].started { return; }
      var fr: Quads := tasks[i].frame;
      for z := 0 to 21
        invariant |fr| == 22 && forall j :: 0 <= j < z ==> fr[j] == 0
      {
        fr := fr[z := 0];
      }
      fr := fr[RIP := entry[i]][RSP := stktop[i]];
      fr := fr[CS := SEL_USER_CODE][SS := SEL_USER_DATA][RFLAGS := 0x202];
      assert fr == InitialFrame(entry[i], stktop[i]);
      assert fr == seq(17, _ => 0) + [entry[i], 0x1B, 0x202, stktop[i], 0x23];
      tasks[i] := tasks[i].(frame := fr, started := true);
    }

    /** A timer tick: at the end of a slice, snapshot, rotate and resume the next task. */
    method Tick(f: Quads) returns (o: Outcome)
      requires Valid()
      modifies this`ticks, this`quantum, this`preempts, this`cur, tasks
      ensures Valid() && State() == TickState(old(State()), f)
      ensures o == TickOutcome(old(State()), f)
    {
      ticks := ticks + 1;
      if ntasks > 0 && FromRing3(f) {
        quantum := quantum + 1;
        if quantum >= QUANTUM_TICKS {
          quantum := 0;
          preempts := preempts + 1;
          tasks[cur] := tasks[cur].(frame := f);
          var next := (cur + 1) % ntasks;
          MarkStart(next);
          cur := next;
          return Switch(tasks[next].frame, tasks[next].cr3);
        }
      }
      return Back(f, []);
    }

    method PutChar(c: byte)
      modifies this`serial
      ensures serial == old(serial) + WireByte(c)
    {
      if c == 10 { serial := serial + [13]; }
      serial := serial + [c];
    }

    /** Sends len bytes from address buf; reading beyond memory faults. */
    method SendAll(ram: array<byte>, buf: nat, len: nat) returns (ok: bool)
      modifies this`serial
      ensures ok <==> len == 0 || buf + len <= ram.Length
      ensures ok ==> serial == old(serial) + Wire(if len == 0 then [] else ram[buf..buf + len])
    {
      for i := 0 to len
        invariant i > 0 ==> buf + i <= ram.Length
        invariant serial == old(serial) + Wire(if i == 0 then [] else ram[buf..buf + i])
      {
        if buf + i >= ram.Length { return false; }
        assert ram[buf..buf + i + 1][..i] == if i == 0 then [] else ram[buf..buf + i];
        PutChar(ram[buf + i]);
      }
      return true;
    }

    /** write, exit, read; anything else is an error to the caller. */
    method Syscall(f: Quads, ram: array<byte>) returns (o: Outcome)
      requires Valid()
      modifies this`serial, this`endIdx
      ensures o == SyscallOutcome(f, ram[..])
      ensures o.Back? ==> serial == old(serial) + Wire(o.written)
      ensures o.Ended? ==> endIdx == cur && serial == old(serial)
    {
      hide Wire;
      if f[RAX] == 1 {
        SendNothing();
        if f[RDI] != 1 { return Back(f[RAX := MINUS_ONE], []); }
        if f[RSI] == 0 { return Back(f[RAX := MINUS_ONE], []); }
        var buf, len: nat := f[RSI], f[RDX];
        var ok := SendAll(ram, buf, len);
        if !ok { return Panic; }
        return Back(f[RAX := f[RDX]], if len == 0 then [] else ram[buf..buf + len]);
      } else if f[RAX] == 2 {
        endIdx := cur;
        return Ended(Exited(f[RDI]));
      } else {
        SendNothing();
        return if f[RAX] == 3 then Back(f[RAX := 0], []) else Back(f[RAX := MINUS_ONE], []);
      }
    }

    method Dispatch(f: Quads, ram: array<byte>) returns (o: Outcome)
      requires Valid()
      modifies this, tasks
      ensures Valid() && State() == DispatchState(old(State()), f)
      ensures o == DispatchOutcome(old(State()), f, ram[..])
      ensures o.Ended? ==> endIdx == cur
    {
      if f[VECTOR] == 32 {
        o := Tick(f);
      } else if f[VECTOR] == 128 {
        o := Syscall(f, ram);
      } else if f[VECTOR] == 14 && FromRing3(f) {
        endIdx := cur;
        o := Ended(Faulted);
      } else {
        o := Panic;
      }
    }

    /** Sets two resident tasks in play and prepares the first; the caller then enters ring 3. */
    method LaunchPair()
      requires Valid() && tasks.Length == 2
      modifies this, tasks
      ensures Valid() && ntasks == 2 && cur == 0 && quantum == 0 && preempts == old(preempts)
      ensures State() == Marked(old(State()).(ntasks := 2, cur := 0, quantum := 0), 0)
    {
      ntasks := 2;
      cur := 0;
      quantum := 0;
      MarkStart(0);
    }

    /** After a task ended, the other one is put back from its snapshot or its initial frame. */
    method ResumeSurvivor() returns (o: Outcome)
      requires Valid() && ntasks == tasks.Length == 2 && endIdx < 2
      modifies this`cur, tasks
      ensures Valid() && cur == 1 - endIdx
      ensures State() == Marked(old(State()), 1 - endIdx).(cur := 1 - endIdx)
      ensures o == Switch(tasks[cur].frame, tasks[cur].cr3)
      ensures old(tasks[1 - endIdx].started) ==> o == Switch(old(tasks[1 - endIdx]).frame, old(tasks[1 - endIdx]).cr3)
    {
      var other := 1 - endIdx;
      MarkStart(other);
      cur := other;
      return Switch(tasks[other].frame, tasks[other].cr3);
    }
  }
}
