/**
 Two programs started side by side: both are loaded into one memory and entered under the preemptive
 scheduler. This puts the loading of programs and the run theorems of the scheduler together.
 */
module Pair {
  import opened Bytes
  import opened Paging
  import opened Vmm
  import opened Isolation
  import opened Frames
  import opened Sched
  import opened Preempt
  import opened Launch
  import Vfs

  const BASE_A: u64 := 0x1900_0000
  const BASE_B: u64 := 0x1950_0000

  /** The scheduling globals with a loaded program in slot t. */
  function Installed(k: KState, t: nat, base: u64, x: Task): (r: KState)
    requires WellFormed(k) && t < |k.tasks| && base + WINDOW < TWO64 && x.cr3 < TWO64
    ensures WellFormed(r) && |r.tasks| == |k.tasks|
  {
    k.(entry := k.entry[t := x.entry], stktop := k.stktop[t := base + WINDOW],
       tasks := k.tasks[t := k.tasks[t].(cr3 := x.cr3, started := false)])
  }

  /** Both slots filled, task 0 prepared and current. */
  function Ready(k: KState, a: Task, b: Task): (r: KState)
    requires WellFormed(k) && |k.tasks| == 2 && a.cr3 < TWO64 && b.cr3 < TWO64
    ensures WellFormed(r) && |r.tasks| == 2
  {
    Marked(Installed(Installed(k, 0, BASE_A, a), 1, BASE_B, b).(ntasks := 2, cur := 0, quantum := 0), 0)
  }

  /** Both loads in order; the second sees what the first left. */
  ghost predicate BothLoaded(m0: seq<byte>, b0: nat, fileA: Option<seq<byte>>, fileB: Option<seq<byte>>, boot: nat,
                             mid: seq<byte>, bmid: nat, m: seq<byte>, bump: nat, a: Option<Task>, b: Option<Task>)
  {
    && |m0| == |mid| == GIB4
    && LoadEffect(m0, b0, fileA, BASE_A, boot, mid, bmid, a)
    && (if a == None then m == mid && bump == bmid && b == None
        else LoadEffect(mid, bmid, fileB, BASE_B, boot, m, bump, b))
  }

  /** The body of the loading loop: one program into its window and its slot. */
  method LoadSlot(fs: Vfs.FileSystem, vmm: Allocator, sched: Scheduler, t: nat, name: seq<byte>, base: u64) returns (x: Option<Task>)
    requires fs.Valid() && vmm.Valid() && BootTables(vmm.ram[..], vmm.boot) && KernelPlaced(vmm.boot, base) && NulFree(name)
    requires LeavesTables(vmm.ram[..], FileOf(fs, name), base, vmm.boot)
    requires sched.Valid() && t < sched.tasks.Length
    modifies vmm`bump, vmm.ram, sched.tasks, sched.entry, sched.stktop
    ensures vmm.Valid() && BootTables(vmm.ram[..], vmm.boot) && sched.Valid()
    ensures LoadEffect(old(vmm.ram[..]), old(vmm.bump), FileOf(fs, name), base, vmm.boot, vmm.ram[..], vmm.bump, x)
    ensures x.Some? ==> x.value.cr3 < TWO64
    ensures sched.State() == if x.Some? then Installed(old(sched.State()), t, base, x.value) else old(sched.State())
  {
    hide LoadEffect, BootTables, FileOf, Safe, LeavesTables;
    ghost var m0, b0 := vmm.ram[..], vmm.bump;
    x := LoadTask(fs, vmm, name, base);
    if x.Some? {
      SmallCr3(m0, b0, FileOf(fs, name), base, vmm.boot, vmm.ram[..], vmm.bump, x.value);
      sched.entry[t] := x.value.entry;
      sched.stktop[t] := base + WINDOW;
      sched.tasks[t] := sched.tasks[t].(cr3 := x.value.cr3, started := false);
    }
  }

  lemma SmallCr3(m0: seq<byte>, b0: nat, file: Option<seq<byte>>, base: u64, boot: nat, m: seq<byte>, bump: nat, x: Task)
    requires |m0| == GIB4 && LoadEffect(m0, b0, file, base, boot, m, bump, Some(x))
    ensures x.cr3 < TWO64
  {
    hide Loading, EntryIn, Built;
  }

  /**
   Loads both programs and enters the first. On failure the slots already filled stay filled, but
   nothing is put in play.
   */
  method LoadPair(fs: Vfs.FileSystem, vmm: Allocator, sched: Scheduler, core: Core, nameA: seq<byte>, nameB: seq<byte>)
    returns (ok: bool, a: Option<Task>, b: Option<Task>, ghost mid: seq<byte>, ghost bmid: nat)
    requires fs.Valid() && vmm.Valid() && BootTables(vmm.ram[..], vmm.boot) && vmm.boot + 6 * TABLE <= STAGE
    requires NulFree(nameA) && NulFree(nameB) && sched.Valid() && sched.tasks.Length == 2
    requires LeavesTables(vmm.ram[..], FileOf(fs, nameA), BASE_A, vmm.boot)
    requires forall m, bump, x :: LoadEffect(vmm.ram[..], vmm.bump, FileOf(fs, nameA), BASE_A, vmm.boot, m, bump, Some(x)) ==>
               LeavesTables(m, FileOf(fs, nameB), BASE_B, vmm.boot)
    modifies vmm`bump, vmm.ram, sched, sched.tasks, sched.entry, sched.stktop, core
    ensures vmm.Valid() && BootTables(vmm.ram[..], vmm.boot) && sched.Valid() && ok == (a.Some? && b.Some?)
    ensures BothLoaded(old(vmm.ram[..]), old(vmm.bump), FileOf(fs, nameA), FileOf(fs, nameB), vmm.boot, mid, bmid, vmm.ram[..], vmm.bump, a, b)
    ensures a == None ==> sched.State() == old(sched.State())
    ensures a.Some? ==> a.value.cr3 < TWO64
    ensures a.Some? && b == None ==> sched.State() == Installed(old(sched.State()), 0, BASE_A, a.value)
    ensures ok ==>
              && b.value.cr3 < TWO64 && sched.State() == Ready(old(sched.State()), a.value, b.value)
              && core.r == Entered(old(core.r), a.value.entry, BASE_A + WINDOW, a.value.cr3) && core.cr3 == a.value.cr3
    ensures !ok ==> core.r == old(core.r) && core.cr3 == old(core.cr3)
  {
    hide LoadEffect, BootTables, FileOf, Safe, LeavesTables, Marked;
    LowTablesArePlaced(vmm.boot);
    b := None;
    a := LoadSlot(fs, vmm, sched, 0, nameA, BASE_A);
    mid, bmid := vmm.ram[..], vmm.bump;
    if a == None { return false, a, b, mid, bmid; }
    b := LoadSlot(fs, vmm, sched, 1, nameB, BASE_B);
    if b == None { return false, a, b, mid, bmid; }
    sched.LaunchPair();
    var kernelCr3 := core.UserEnter(sched.entry[0], sched.stktop[0], a.value.cr3);
    ok := true;
  }

  // ---- From the file system to the run theorems -----------------------------

  /** Both files are sparing as they are loaded. */
  ghost predicate BothSparing(m0: seq<byte>, fileA: Option<seq<byte>>, mid: seq<byte>, fileB: Option<seq<byte>>)
  {
    && |m0| == |mid| == GIB4 && fileA.Some? && fileB.Some?
    && Sparing(m0, Staged(fileA.value), BASE_A) && Sparing(mid, Staged(fileB.value), BASE_B)
  }

  function Spaces(a: Task, b: Task): seq<Space> { [Space(a.cr3, BASE_A), Space(b.cr3, BASE_B)] }

  lemma LoadedFile(m0: seq<byte>, b0: nat, file: Option<seq<byte>>, base: u64, boot: nat, m: seq<byte>, bump: nat, x: Task)
    requires |m0| == GIB4 && LoadEffect(m0, b0, file, base, boot, m, bump, Some(x))
    ensures file.Some? && LoadedAs(m0, b0, Staged(file.value), base, boot, m, bump, x)
  {
    hide Loading, LoadedAs;
  }

  /** Loading a pair keeps the isolation of all others, and the two new spaces join them. */
  lemma PairKeepsInv(m0: seq<byte>, b0: nat, fileA: Option<seq<byte>>, fileB: Option<seq<byte>>, boot: nat,
                     mid: seq<byte>, bmid: nat, m: seq<byte>, bump: nat, a: Task, b: Task, spaces: seq<Space>)
    requires BothLoaded(m0, b0, fileA, fileB, boot, mid, bmid, m, bump, Some(a), Some(b)) && BothSparing(m0, fileA, mid, fileB)
    requires Inv(boot, World(m0, b0, spaces)) && boot + 6 * TABLE <= STAGE
    ensures Inv(boot, World(m, bump, spaces + Spaces(a, b)))
  {
    hide LoadEffect, LoadedAs, Sparing, Inv, Safe, Staged;
    LoadedFile(m0, b0, fileA, BASE_A, boot, mid, bmid, a);
    LoadedFile(mid, bmid, fileB, BASE_B, boot, m, bump, b);
    BootIsPlaced(boot, World(m0, b0, spaces));
    LowTablesArePlaced(boot);
    LoadKeepsInv(m0, b0, Staged(fileA.value), BASE_A, boot, mid, bmid, a, spaces);
    LoadKeepsInv(mid, bmid, Staged(fileB.value), BASE_B, boot, m, bump, b, spaces + [Space(a.cr3, BASE_A)]);
    assert spaces + [Space(a.cr3, BASE_A)] + [Space(b.cr3, BASE_B)] == spaces + Spaces(a, b);
  }

  /** The spaces of a world without the older ones. */
  lemma NewerSpaces(boot: nat, m: seq<byte>, bump: nat, older: seq<Space>, newer: seq<Space>)
    requires Inv(boot, World(m, bump, older + newer))
    ensures Inv(boot, World(m, bump, newer))
  {
    hide BootTables, Built, Safe;
    var n, all := |older|, older + newer;
    assert forall i | 0 <= i < |newer| :: newer[i] == all[n + i];
  }

  /** The machine that a successful start leaves. */
  function Entry(m: seq<byte>, live: Cpu, k: KState, a: Task, b: Task): Machine
    requires WellFormed(k) && |k.tasks| == 2 && a.cr3 < TWO64 && b.cr3 < TWO64
  {
    Machine(m, Entered(live, a.entry, BASE_A + WINDOW, a.cr3), Ready(k, a, b), [[], []], None)
  }

  /**
   What the run theorems assume holds of the machine that loading two programs leaves: tables as built,
   windows apart, both tasks in ring 3, each at its entry point with its own stack.
   */
  lemma PairStarts(m0: seq<byte>, b0: nat, fileA: Option<seq<byte>>, fileB: Option<seq<byte>>, boot: nat,
                   mid: seq<byte>, bmid: nat, m: seq<byte>, bump: nat, a: Task, b: Task, spaces: seq<Space>, k: KState, live: Cpu)
    requires BothLoaded(m0, b0, fileA, fileB, boot, mid, bmid, m, bump, Some(a), Some(b)) && BothSparing(m0, fileA, mid, fileB)
    requires Inv(boot, World(m0, b0, spaces)) && boot + 6 * TABLE <= STAGE
    requires WellFormed(k) && |k.tasks| == 2 && a.cr3 < TWO64 && b.cr3 < TWO64
    ensures var g := Entry(m, live, k, a, b);
            && Good(g) && Placed(boot, bump, Spaces(a, b), g) && InRing3(g) && g.k.ntasks == |g.k.tasks| == 2
            && Project(g, 0).cpu == live.(rax := a.cr3, rip := a.entry, cs := 0x1B, rflags := 0x202, rsp := 0x1940_0000, ss := 0x23)
            && Project(g, 1).cpu == Cpu(0, 0, 0, 0, 0, 0, 0, 0, 0, 0, 0, 0, 0, 0, 0, b.entry, 0x1B, 0x202, 0x1990_0000, 0x23)
            && Project(g, 0).out == Project(g, 1).out == [] && Project(g, 0).stop == Project(g, 1).stop == None
  {
    hide BothLoaded, BothSparing, Inv, UserView, CpuOf, InitialFrame, Placed;
    var g := Entry(m, live, k, a, b);
    PairKeepsInv(m0, b0, fileA, fileB, boot, mid, bmid, m, bump, a, b, spaces);
    NewerSpaces(boot, m, bump, spaces, Spaces(a, b));
    PairIsPlaced(boot, World(m, bump, Spaces(a, b)), g);
    LaunchInRing3(g, 1);
  }

  /**
   End to end: two files of the archive, loaded side by side and run under any tick timing, each
   behave as a program that has the machine to itself, up to the first end, and the other one can
   then go on from exactly where its own run stands.
   */
  lemma PairRuns(isa: Isa, m0: seq<byte>, b0: nat, fileA: Option<seq<byte>>, fileB: Option<seq<byte>>, boot: nat,
                 mid: seq<byte>, bmid: nat, m: seq<byte>, bump: nat, a: Task, b: Task, spaces: seq<Space>, k: KState, live: Cpu,
                 es: seq<Ev>, i: nat)
    requires BothLoaded(m0, b0, fileA, fileB, boot, mid, bmid, m, bump, Some(a), Some(b)) && BothSparing(m0, fileA, mid, fileB)
    requires Inv(boot, World(m0, b0, spaces)) && boot + 6 * TABLE <= STAGE
    requires WellFormed(k) && |k.tasks| == 2 && a.cr3 < TWO64 && b.cr3 < TWO64 && i < 2
    requires StaysInRing3(isa) && Good(Entry(m, live, k, a, b)) && AllPolite(isa, Entry(m, live, k, a, b))
    ensures var g := Entry(m, live, k, a, b);
            var r := MachineRun(isa, g, es);
            && r.k.ntasks == 2 && Project(r, i) == AloneRun(isa, Project(g, i), Count(isa, g, es, Exec, i))
            && (r.halted.Some? && r.halted.value.TaskEnd? && i == 1 - r.halted.value.idx ==>
                  Project(Resumed(r, i), i) == AloneRun(isa, Project(g, i), Count(isa, g, es, Exec, i)))
  {
    hide BothLoaded, BothSparing, Inv, Placed, InRing3, Project, AloneRun, MachineRun, Ready, AllPolite, StaysInRing3, Entered;
    var g := Entry(m, live, k, a, b);
    PairStarts(m0, b0, fileA, fileB, boot, mid, bmid, m, bump, a, b, spaces, k, live);
    TransparentPreemption(isa, boot, bump, Spaces(a, b), g, es);
    var r := MachineRun(isa, g, es);
    if r.halted.Some? && r.halted.value.TaskEnd? { SurvivorResumes(isa, boot, bump, Spaces(a, b), g, es); }
  }
}
