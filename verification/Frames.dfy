/**
 The register frame of an interrupt: how the entry stub lays the interrupted registers out on the
 kernel stack, and the two ways back to ring 3, each a sequence of loads and pops.
 */
module Frames {
  import opened Bytes

  /** The registers an interrupt saves. */
  datatype Cpu = Cpu(
    rax: u64, rbx: u64, rcx: u64, rdx: u64, rsi: u64, rdi: u64, rbp: u64,
    r8: u64, r9: u64, r10: u64, r11: u64, r12: u64, r13: u64, r14: u64, r15: u64,
    rip: u64, cs: u64, rflags: u64, rsp: u64, ss: u64)

  /** Quads of a frame, lowest address first. */
  const RSI: nat := 10
  const RDI: nat := 9
  const RDX: nat := 11
  const RAX: nat := 14
  const VECTOR: nat := 15
  const RIP: nat := 17
  const CS: nat := 18
  const RFLAGS: nat := 19
  const RSP: nat := 20
  const SS: nat := 21

  type Quads = f: seq<u64> | |f| == 22 witness seq(22, _ => 0)

  function FrameOf(c: Cpu, vector: u64, error: u64): Quads
  {
    [c.r15, c.r14, c.r13, c.r12, c.r11, c.r10, c.r9, c.r8, c.rbp, c.rdi, c.rsi, c.rdx, c.rcx, c.rbx, c.rax,
     vector, error, c.rip, c.cs, c.rflags, c.rsp, c.ss]
  }

  /** The registers a frame stands for. */
  function CpuOf(f: Quads): Cpu
  {
    Cpu(f[14], f[13], f[12], f[11], f[10], f[9], f[8], f[7], f[6], f[5], f[4], f[3], f[2], f[1], f[0],
        f[17], f[18], f[19], f[20], f[21])
  }

  /** The registers a task is first entered with; the others are whatever the kernel left in them. */
  function Entered(c: Cpu, rip: u64, rsp: u64, space: u64): Cpu
  {
    c.(rax := space, rip := rip, cs := 0x1B, rflags := 0x202, rsp := rsp, ss := 0x23)
  }

  /** The register file of a task that has never run: where it starts, ring-3 selectors, interrupts on, all else zero. */
  function Untouched(rip: u64, rsp: u64): Cpu
  {
    Cpu(0, 0, 0, 0, 0, 0, 0, 0, 0, 0, 0, 0, 0, 0, 0, rip, 0x1B, 0x202, rsp, 0x23)
  }

  /** Kernel memory, read in quads, holds frame f at address a. */
  ghost predicate FrameAt(quads: u64 -> u64, a: u64, f: Quads)
  {
    a + 176 < TWO64 && forall i: nat {:trigger f[i]} | i < 22 :: quads(a + 8 * i) == f[i]
  }

  /** One processor with its kernel stack, lowest address first. */
  class Core {
    var r: Cpu
    var stack: seq<u64>
    var cr3: u64

    method Push(v: u64)
      modifies this`stack
      ensures stack == [v] + old(stack)
    {
      stack := [v] + stack;
    }

    method Pop() returns (v: u64)
      requires stack != []
      modifies this`stack
      ensures [v] + stack == old(stack)
    {
      v := stack[0];
      stack := stack[1..];
    }

    method PushIret(rip: u64, cs: u64, rflags: u64, rsp: u64, ss: u64)
      modifies this`stack
      ensures stack == [rip, cs, rflags, rsp, ss] + old(stack)
    {
      Push(ss); Push(rsp); Push(rflags); Push(cs); Push(rip);
    }

    method PushLegacy()
      modifies this`stack
      ensures stack == [r.rbp, r.rdi, r.rsi, r.rdx, r.rcx, r.rbx, r.rax] + old(stack)
    {
      Push(r.rax); Push(r.rbx); Push(r.rcx); Push(r.rdx); Push(r.rsi); Push(r.rdi); Push(r.rbp);
    }

    method PushExtended()
      modifies this`stack
      ensures stack == [r.r15, r.r14, r.r13, r.r12, r.r11, r.r10, r.r9, r.r8] + old(stack)
    {
      Push(r.r8); Push(r.r9); Push(r.r10); Push(r.r11); Push(r.r12); Push(r.r13); Push(r.r14); Push(r.r15);
    }

    /** The processor's own five pushes, the stub's two and the common stub's fifteen. */
    method Enter(vector: u64, error: u64)
      modifies this`stack
      ensures stack == FrameOf(r, vector, error) + old(stack)
    {
      ghost var s := stack;
      PushIret(r.rip, r.cs, r.rflags, r.rsp, r.ss);
      Push(error); Push(vector);
      assert stack == [vector, error, r.rip, r.cs, r.rflags, r.rsp, r.ss] + s;
      PushLegacy();
      assert stack == [r.rbp, r.rdi, r.rsi, r.rdx, r.rcx, r.rbx, r.rax] + [vector, error, r.rip, r.cs, r.rflags, r.rsp, r.ss] + s;
      PushExtended();
    }

    /** Return from interrupt: five pops by the processor. */
    method Iretq()
      requires |stack| >= 5
      modifies this
      ensures stack == old(stack)[5..] && cr3 == old(cr3)
      ensures r == old(r).(rip := old(stack)[0], cs := old(stack)[1], rflags := old(stack)[2],
                           rsp := old(stack)[3], ss := old(stack)[4])
    {
      var rip := Pop(); var cs := Pop(); var rflags := Pop(); var rsp := Pop(); var ss := Pop();
      r := r.(rip := rip, cs := cs, rflags := rflags, rsp := rsp, ss := ss);
    }

    method PopExtended()
      requires |stack| >= 8
      modifies this
      ensures stack == old(stack)[8..] && cr3 == old(cr3)
      ensures var s := old(stack);
              r == old(r).(r15 := s[0], r14 := s[1], r13 := s[2], r12 := s[3], r11 := s[4], r10 := s[5], r9 := s[6], r8 := s[7])
    {
      var r15 := Pop(); var r14 := Pop(); var r13 := Pop(); var r12 := Pop();
      var r11 := Pop(); var r10 := Pop(); var r9 := Pop(); var r8 := Pop();
      r := r.(r15 := r15, r14 := r14, r13 := r13, r12 := r12, r11 := r11, r10 := r10, r9 := r9, r8 := r8);
    }

    method PopLegacy()
      requires |stack| >= 7
      modifies this
      ensures stack == old(stack)[7..] && cr3 == old(cr3)
      ensures var s := old(stack);
              r == old(r).(rbp := s[0], rdi := s[1], rsi := s[2], rdx := s[3], rcx := s[4], rbx := s[5], rax := s[6])
    {
      var rbp := Pop(); var rdi := Pop(); var rsi := Pop(); var rdx := Pop();
      var rcx := Pop(); var rbx := Pop(); var rax := Pop();
      r := r.(rbp := rbp, rdi := rdi, rsi := rsi, rdx := rdx, rcx := rcx, rbx := rbx, rax := rax);
    }

    /** The way back through the common stub, with whatever the dispatcher left in the frame. */
    method Leave(ghost f: Quads)
      requires f <= stack
      modifies this
      ensures r == CpuOf(f) && stack == old(stack)[22..] && cr3 == old(cr3)
    {
      PopExtended();
      PopLegacy();
      stack := stack[2..];
      Iretq();
    }

    /** The return frame, pushed from the saved one. */
    method PushReturn(quads: u64 -> u64, ghost f: Quads)
      requires FrameAt(quads, r.rcx, f)
      modifies this`stack
      ensures stack == [f[17], f[18], f[19], f[20], f[21]] + old(stack)
    {
      assert f[21] == quads(r.rcx + 168) && f[20] == quads(r.rcx + 160) && f[19] == quads(r.rcx + 152);
      assert f[18] == quads(r.rcx + 144) && f[17] == quads(r.rcx + 136);
      Push(quads(r.rcx + 168));
      Push(quads(r.rcx + 160));
      Push(quads(r.rcx + 152));
      Push(quads(r.rcx + 144));
      Push(quads(r.rcx + 136));
    }

    /** The loads of r15 down to rbp, based on rcx. */
    method LoadExtended(quads: u64 -> u64, ghost f: Quads)
      requires FrameAt(quads, r.rcx, f)
      modifies this`r
      ensures r == old(r).(r15 := f[0], r14 := f[1], r13 := f[2], r12 := f[3], r11 := f[4], r10 := f[5], r9 := f[6], r8 := f[7], rbp := f[8])
    {
      LoadUpper(quads, f);
      LoadMiddle(quads, f);
    }

    method LoadUpper(quads: u64 -> u64, ghost f: Quads)
      requires FrameAt(quads, r.rcx, f)
      modifies this`r
      ensures r == old(r).(r15 := f[0], r14 := f[1], r13 := f[2], r12 := f[3])
    {
      ghost var frame := r.rcx;
      r := r.(r15 := quads(r.rcx));
      r := r.(r14 := quads(r.rcx + 8));
      r := r.(r13 := quads(r.rcx + 16));
      r := r.(r12 := quads(r.rcx + 24));
      assert f[0] == quads(frame) && f[1] == quads(frame + 8) && f[2] == quads(frame + 16) && f[3] == quads(frame + 24);
    }

    method LoadMiddle(quads: u64 -> u64, ghost f: Quads)
      requires FrameAt(quads, r.rcx, f)
      modifies this`r
      ensures r == old(r).(r11 := f[4], r10 := f[5], r9 := f[6], r8 := f[7], rbp := f[8])
    {
      ghost var frame := r.rcx;
      r := r.(r11 := quads(r.rcx + 32));
      r := r.(r10 := quads(r.rcx + 40));
      r := r.(r9 := quads(r.rcx + 48));
      r := r.(r8 := quads(r.rcx + 56));
      r := r.(rbp := quads(r.rcx + 64));
      assert f[4] == quads(frame + 32) && f[5] == quads(frame + 40) && f[6] == quads(frame + 48) && f[7] == quads(frame + 56);
      assert f[8] == quads(frame + 64);
    }

    /** The other loads, in the source's order: rcx itself must come last. */
    method LoadLegacy(quads: u64 -> u64, ghost f: Quads)
      requires FrameAt(quads, r.rcx, f)
      modifies this`r
      ensures r == old(r).(rdi := f[9], rsi := f[10], rdx := f[11], rcx := f[12], rbx := f[13], rax := f[14])
    {
      hide FrameAt;
      LoadFirst(quads, f);
      LoadLast(quads, f);
    }

    method LoadFirst(quads: u64 -> u64, ghost f: Quads)
      requires FrameAt(quads, r.rcx, f)
      modifies this`r
      ensures r == old(r).(rsi := f[10], rbx := f[13], rax := f[14])
    {
      ghost var frame := r.rcx;
      r := r.(rbx := quads(r.rcx + 104));
      r := r.(rax := quads(r.rcx + 112));
      r := r.(rsi := quads(r.rcx + 80));
      assert f[10] == quads(frame + 80) && f[13] == quads(frame + 104) && f[14] == quads(frame + 112);
    }

    method LoadLast(quads: u64 -> u64, ghost f: Quads)
      requires FrameAt(quads, r.rcx, f)
      modifies this`r
      ensures r == old(r).(rdi := f[9], rdx := f[11], rcx := f[12])
    {
      ghost var frame := r.rcx;
      r := r.(rdx := quads(r.rcx + 88));
      r := r.(rdi := quads(r.rcx + 72));
      r := r.(rcx := quads(r.rcx + 96));
      assert f[9] == quads(frame + 72) && f[11] == quads(frame + 88) && f[12] == quads(frame + 96);
    }

    /**
     sam_user_resume: every load goes through rcx, which holds the frame's address until its own
     value is loaded last; quads gives the kernel memory those loads read.
     */
    method Resume(quads: u64 -> u64, frame: u64, space: u64, ghost f: Quads)
      requires FrameAt(quads, frame, f)
      modifies this
      ensures r == CpuOf(f) && cr3 == space && stack == old(stack)
    {
      hide FrameAt;
      r := r.(rdi := frame, rsi := space);
      r := r.(rcx := r.rdi);
      r := r.(rax := r.rsi);
      cr3 := r.rax;
      PushReturn(quads, f);
      LoadExtended(quads, f);
      LoadLegacy(quads, f);
      Iretq();
    }

    /**
     The first entry to ring 3: the kernel's CR3 is kept, some of its registers stay on its stack, and a
     fake interrupt frame is returned from.
     */
    method UserEnter(rip: u64, rsp: u64, space: u64) returns (kernelCr3: u64)
      modifies this
      ensures r == Entered(old(r), rip, rsp, space) && cr3 == space && kernelCr3 == old(cr3)
      ensures var c := old(r); stack == [c.r15, c.r14, c.r13, c.r12, c.rbx, c.rflags] + old(stack)
    {
      r := r.(rax := cr3);
      kernelCr3 := r.rax;
      r := r.(rax := space);
      cr3 := r.rax;
      PushCallee();
      ghost var s := stack;
      PushIret(rip, 0x1B, 0x202, rsp, 0x23);
      Iretq();
      assert stack == s;
    }

    method PushCallee()
      modifies this`stack
      ensures stack == [r.r15, r.r14, r.r13, r.r12, r.rbx, r.rflags] + old(stack)
    {
      Push(r.rflags); Push(r.rbx); Push(r.r12); Push(r.r13); Push(r.r14); Push(r.r15);
    }

    /** An interrupt that is served and returned from leaves no trace, on either way back. */
    method EnterAndLeave(vector: u64, error: u64)
      modifies this
      ensures r == old(r) && stack == old(stack) && cr3 == old(cr3)
    {
      Enter(vector, error);
      Leave(FrameOf(r, vector, error));
    }

    method EnterAndResume(vector: u64, error: u64, quads: u64 -> u64, frame: u64)
      requires FrameAt(quads, frame, FrameOf(r, vector, error))
      modifies this
      ensures r == old(r) && cr3 == old(cr3)
    {
      var space := cr3;
      ghost var f := FrameOf(r, vector, error);
      Enter(vector, error);
      Resume(quads, frame, space, f);
    }
  }
}
