/**
 Starting programs: a file is read into a staging area, its segments are laid over the same memory,
 and an address space is built for its window in the page-table pool of that memory. A program
 started by name also gets its arguments on its stack.
 */
module Launch {
  import opened Bytes
  import opened Paging
  import opened Vmm
  import opened Isolation
  import Args
  import Elf
  import Vfs

  /** Fixed places of the kernel's memory layout. */
  const STAGE: nat := 0x1430_0000
  const STAGE_MAX: nat := 0x10_0000
  const WINDOW: nat := 0x40_0000
  const USER_CODE_BASE: nat := 0x1900_0000
  const USER_STACK_TOP: nat := 0x1940_0000

  /** The kernel's tables lie outside the staging area, the loader's window at base and the pages it opens. */
  ghost predicate KernelPlaced(boot: nat, base: nat)
  {
    && base + WINDOW < GIB4
    && ClearOfTables(boot, STAGE, STAGE + STAGE_MAX) && ClearOfTables(boot, base, base + WINDOW) && Safe(base, boot)
  }

  /** Boot tables below the staging area leave room for the windows of all callers. */
  lemma LowTablesArePlaced(boot: nat)
    requires BootPlaced(boot) && boot + 6 * TABLE <= STAGE
    ensures KernelPlaced(boot, 0x1900_0000) && KernelPlaced(boot, 0x1950_0000)
  {
    PairWindows(boot, 0);
  }

  /** The part of a file that is staged. */
  function Staged(data: seq<byte>): (img: seq<byte>)
    ensures |img| <= STAGE_MAX && img <= data && (|img| == |data| || |img| == 0x10_0000)
  {
    if |data| > STAGE_MAX then data[..STAGE_MAX] else data
  }

  lemma StagedIsRead(data: seq<byte>)
    ensures Vfs.ReadOnce(data, 0, STAGE_MAX).0 == Staged(data)
  {
  }

  /** The content of the named file, if there is one. */
  function FileOf(fs: Vfs.FileSystem, name: seq<byte>): Option<seq<byte>>
    requires fs.Valid()
    reads fs
  {
    var idx := Vfs.IndexOf(fs.files, name);
    if 0 <= idx < |fs.files| then Some(fs.Data(idx)) else None
  }

  // ---- Loading one program --------------------------------------------------

  /** The loader's run on an image that has been staged over m0. */
  function Loading(m0: seq<byte>, img: seq<byte>, base: nat): (l: Elf.Loading)
    requires |m0| == GIB4 && |img| <= STAGE_MAX
    ensures |l.mem| == |m0|
  {
    Elf.Load(Put(m0, STAGE, img), STAGE, |img|, base, base + WINDOW)
  }

  /** The entry point, read from the staged header after loading. */
  function EntryIn(m: seq<byte>): u64
    requires |m| == GIB4
  {
    Elf.HeaderIn(m, STAGE).entry
  }

  /**
   What a start assumes of a file: no accepted header covers the kernel's tables. The loader itself
   runs on them, so a machine on which it overwrites them is beyond this model.
   */
  ghost predicate LeavesTables(m0: seq<byte>, file: Option<seq<byte>>, base: nat, boot: nat)
  {
    |m0| == GIB4 && file.Some? ==> Elf.Apart(Loading(m0, Staged(file.value), base).taken, boot, 6 * TABLE)
  }

  /** A program in memory, ready to be entered. */
  datatype Task = Task(entry: u64, cr3: nat)

  /** Memory from m0 to m over a successful load: the loader's run, then the three new page tables. */
  ghost predicate LoadedAs(m0: seq<byte>, bump: nat, img: seq<byte>, base: u64, boot: nat, m: seq<byte>, bump': nat, t: Task)
  {
    && |m0| == GIB4 && Elf.EHDR_SIZE <= |img| <= STAGE_MAX && base + WINDOW < GIB4
    && var l := Loading(m0, img, base);
       l.code == 0 && t.entry == EntryIn(l.mem) && Fits(bump) && Created(l.mem, bump, boot, base, m, bump', t.cr3)
  }

  /**
   The whole effect of loading a file: nothing for a missing or empty one, the loader's stores for one
   it rejects, the rest of the pool too if no space can be had, or a program in its own space.
   */
  ghost predicate LoadEffect(m0: seq<byte>, bump: nat, file: Option<seq<byte>>, base: u64, boot: nat,
                             m: seq<byte>, bump': nat, t: Option<Task>)
    requires |m0| == GIB4
  {
    if file == None || file.value == [] then t == None && m == m0 && bump' == bump
    else
      var l := Loading(m0, Staged(file.value), base);
      if l.code != 0 then t == None && m == l.mem && bump' == bump
      else if !Fits(bump) then t == None && bump' == POOL_END && SameOutside(l.mem, m, bump, POOL_END)
      else t.Some? && LoadedAs(m0, bump, Staged(file.value), base, boot, m, bump', t.value)
  }

  /** Loading leaves the kernel's tables alone. */
  lemma LoadKeepsBoot(m0: seq<byte>, img: seq<byte>, base: nat, boot: nat)
    requires BootTables(m0, boot) && KernelPlaced(boot, base) && |img| <= STAGE_MAX
    requires Elf.Apart(Loading(m0, img, base).taken, boot, 6 * TABLE)
    ensures BootTables(Loading(m0, img, base).mem, boot)
  {
    hide Elf.Load, Elf.Apart, Put, Safe;
    var m1 := Put(m0, STAGE, img);
    BootFrame(m0, m1, STAGE, STAGE + |img|, boot);
    Elf.ApartKeeps(m1, STAGE, |img|, base, base + WINDOW, boot, 6 * TABLE);
    BootSame(m1, Loading(m0, img, base).mem, boot);
  }

  lemma HoldsSame(m: seq<byte>, r: seq<byte>, t: nat, f: nat -> nat)
    requires |r| == |m| && t + TABLE <= |m| && Holds(m, t, f)
    requires forall a | t <= a < t + TABLE :: r[a] == m[a]
    ensures Holds(r, t, f)
  {
    forall i: nat | i < 512 ensures Slot(r, t, i) == f(i) {
      assert r[t + 8 * i..t + 8 * i + 8] == m[t + 8 * i..t + 8 * i + 8];
      assert Slot(m, t, i) == f(i);
    }
  }

  lemma BootSame(m: seq<byte>, r: seq<byte>, boot: nat)
    requires |r| == |m| && BootTables(m, boot)
    requires forall a | boot <= a < boot + 6 * TABLE :: r[a] == m[a]
    ensures BootTables(r, boot)
  {
    hide Holds;
    HoldsSame(m, r, boot, BootPml4(boot));
    HoldsSame(m, r, boot + 0x1000, BootPdpt(boot));
    HoldsSame(m, r, boot + 0x2000, BootPd(0));
    HoldsSame(m, r, boot + 0x3000, BootPd(1));
    HoldsSame(m, r, boot + 0x4000, BootPd(2));
    HoldsSame(m, r, boot + 0x5000, BootPd(3));
  }

  /** Reads the named file into the staging area; nothing is read of a missing or empty one. */
  method Stage(fs: Vfs.FileSystem, ram: array<byte>, name: seq<byte>) returns (got: int)
    requires fs.Valid() && NulFree(name) && ram.Length == GIB4
    modifies ram
    ensures var file := FileOf(fs, name);
            if file == None || file.value == [] then got <= 0 && ram[..] == old(ram[..])
            else got == |Staged(file.value)| > 0 && ram[..] == Put(old(ram[..]), 0x1430_0000, Staged(file.value))
  {
    hide Put;
    var h := new Vfs.Handle();
    var ok := fs.Open(name, h);
    if ok != 0 { return -1; }
    StagedIsRead(fs.Data(h.fd));
    Vfs.PutNothing(ram[..], STAGE);
    got := fs.Read(h, ram, STAGE, STAGE_MAX);
    var closed := fs.Close(h);
  }

  /**
   Stages and loads the named program into the window at base and builds its space. The space is asked
   for only after the image has loaded, and its tables stay taken if it fails.
   */
  method LoadTask(fs: Vfs.FileSystem, vmm: Allocator, name: seq<byte>, base: u64) returns (t: Option<Task>)
    requires fs.Valid() && vmm.Valid() && BootTables(vmm.ram[..], vmm.boot) && KernelPlaced(vmm.boot, base) && NulFree(name)
    requires LeavesTables(vmm.ram[..], FileOf(fs, name), base, vmm.boot)
    modifies vmm`bump, vmm.ram
    ensures vmm.Valid() && BootTables(vmm.ram[..], vmm.boot)
    ensures LoadEffect(old(vmm.ram[..]), old(vmm.bump), FileOf(fs, name), base, vmm.boot, vmm.ram[..], vmm.bump, t)
  {
    hide Elf.Load, Elf.Apart, Elf.HeaderIn, Loading, LoadEffect, FileOf, Put, BootTables, Built, Created, Safe, Staged;
    ghost var m0, b0, file := vmm.ram[..], vmm.bump, FileOf(fs, name);
    var got := Stage(fs, vmm.ram, name);
    if got <= 0 {
      NothingLoaded(m0, b0, file, base, vmm.boot);
      return None;
    }
    ghost var l := Loading(m0, Staged(file.value), base);
    LoadKeepsBoot(m0, Staged(file.value), base, vmm.boot);
    var er, entry := LoadStaged(vmm.ram, got, base, m0, Staged(file.value));
    if er != 0 {
      LoadRefused(m0, b0, file, base, vmm.boot);
      return None;
    }
    var cr3 := vmm.CreateUserAsAt(base);
    t := if cr3 == 0 then None else Some(Task(entry, cr3));
    SpaceAsked(m0, b0, file, base, vmm.boot, vmm.ram[..], vmm.bump, entry, cr3);
  }

  /** The loader on the staged image. */
  method LoadStaged(ram: array<byte>, size: nat, base: u64, ghost m0: seq<byte>, ghost img: seq<byte>) returns (er: int, entry: u64)
    requires |m0| == GIB4 && size == |img| <= STAGE_MAX && ram[..] == Put(m0, STAGE, img)
    modifies ram
    ensures var l := Loading(m0, img, base);
            er == l.code && ram[..] == l.mem && (er == 0 ==> entry == EntryIn(l.mem) && size >= Elf.EHDR_SIZE)
  {
    hide Elf.Load, Elf.HeaderIn, Put;
    var e;
    er, e := Elf.LoadIn(ram, STAGE, size, base, base + WINDOW);
    entry := if e.Some? then e.value else 0;
  }

  lemma NothingLoaded(m: seq<byte>, bump: nat, file: Option<seq<byte>>, base: u64, boot: nat)
    requires |m| == GIB4 && (file == None || file.value == [])
    ensures LoadEffect(m, bump, file, base, boot, m, bump, None)
  {
  }

  lemma LoadRefused(m0: seq<byte>, bump: nat, file: Option<seq<byte>>, base: u64, boot: nat)
    requires |m0| == GIB4 && file.Some? && file.value != [] && Loading(m0, Staged(file.value), base).code != 0
    ensures LoadEffect(m0, bump, file, base, boot, Loading(m0, Staged(file.value), base).mem, bump, None)
  {
    hide Loading;
  }

  lemma SpaceAsked(m0: seq<byte>, bump: nat, file: Option<seq<byte>>, base: u64, boot: nat, m: seq<byte>, bump': nat,
                   entry: u64, cr3: nat)
    requires |m0| == GIB4 && base + WINDOW < GIB4 && file.Some? && |Staged(file.value)| >= Elf.EHDR_SIZE
    requires var l := Loading(m0, Staged(file.value), base);
             l.code == 0 && entry == EntryIn(l.mem) && Created(l.mem, bump, boot, base, m, bump', cr3)
    ensures LoadEffect(m0, bump, file, base, boot, m, bump', if cr3 == 0 then None else Some(Task(entry, cr3)))
  {
    hide Loading, EntryIn, Built;
    assert file.value != [];
  }

  // ---- What loading means for everybody else --------------------------------

  /** Every accepted header spares the memory outside the window. */
  predicate Sparing(m0: seq<byte>, img: seq<byte>, base: nat)
    requires |m0| == GIB4 && |img| <= STAGE_MAX
  {
    Elf.AllSpare(Loading(m0, img, base).taken, base + WINDOW, GIB4)
  }

  lemma LoadedOutside(m0: seq<byte>, img: seq<byte>, base: nat)
    requires |m0| == GIB4 && |img| <= STAGE_MAX && 0 < base && base + WINDOW < GIB4 && Sparing(m0, img, base)
    ensures SameOutside(Put(m0, STAGE, img), Loading(m0, img, base).mem, base, base + WINDOW)
  {
    hide Elf.Load, Put, Elf.AllSpare;
    Elf.LoadKeepsOutside(Put(m0, STAGE, img), STAGE, |img|, base, base + WINDOW);
  }

  /** Such an image may be loaded: it spares the kernel's tables. */
  lemma SparingLeavesTables(m0: seq<byte>, data: seq<byte>, base: nat, boot: nat)
    requires |m0| == GIB4 && KernelPlaced(boot, base) && BootPlaced(boot) && Sparing(m0, Staged(data), base)
    ensures LeavesTables(m0, Some(data), base, boot)
  {
    hide Elf.Load, Put, Elf.Spares, Elf.Checked, Elf.Misses, Safe;
    var img := Staged(data);
    Elf.LoadChecks(Put(m0, STAGE, img), STAGE, |img|, base, base + WINDOW);
    var phs := Loading(m0, img, base).taken;
    forall k | 0 <= k < |phs| ensures Elf.Misses(phs[k], boot, boot + 6 * TABLE) {
      SparesMisses(phs[k], base, boot);
    }
  }

  lemma SparesMisses(ph: Elf.Phdr, base: nat, boot: nat)
    requires Elf.Checked(ph, base, base + WINDOW) && Elf.Spares(ph, base + WINDOW, GIB4)
    requires KernelPlaced(boot, base) && BootPlaced(boot)
    ensures Elf.Misses(ph, boot, boot + 6 * TABLE)
  {
    hide Elf.Extent, Safe;
  }

  /** For a well-read image what loading leaves does not depend on memory: the plan's segments, laid over in order. */
  lemma WellReadLoading(m0: seq<byte>, img: seq<byte>, base: nat)
    requires |m0| == GIB4 && |img| <= STAGE_MAX && Elf.WellRead(img, STAGE, base, base + WINDOW)
    ensures var (code, phs) := Elf.Plan(img, base, base + WINDOW);
            Loading(m0, img, base) == Elf.Loading(code, Elf.Apply(Put(m0, STAGE, img), Elf.Segments(img, phs)), phs)
  {
    hide Elf.Load, Elf.Plan, Put, Elf.Apply, Elf.TableInside, Elf.FilesInside, Elf.Apart;
    Elf.LoadIsPlan(Put(m0, STAGE, img), STAGE, img, base, base + WINDOW);
  }

  /** So whether such an image is sparing does not depend on memory either. */
  lemma WellReadSparing(m0: seq<byte>, img: seq<byte>, base: nat)
    requires |m0| == GIB4 && |img| <= STAGE_MAX && Elf.WellRead(img, STAGE, base, base + WINDOW)
    ensures Sparing(m0, img, base) <==> Elf.AllSpare(Elf.Plan(img, base, base + WINDOW).1, base + WINDOW, GIB4)
  {
    hide Loading, Elf.Plan, Elf.AllSpare, Elf.Apply, Elf.TableInside, Elf.FilesInside, Elf.Apart;
    WellReadLoading(m0, img, base);
  }

  /** Loading changes nothing but the staging area, the window and the three new pages of the pool. */
  lemma LoadTouches(m0: seq<byte>, bump: nat, img: seq<byte>, base: u64, boot: nat, m: seq<byte>, bump': nat, t: Task, a: nat)
    requires LoadedAs(m0, bump, img, base, boot, m, bump', t) && 0 < base && Sparing(m0, img, base)
    requires a < GIB4 && !(STAGE <= a < STAGE + |img|) && !(base <= a < base + WINDOW) && !(bump <= a < bump')
    ensures |m| == |m0| && m[a] == m0[a]
  {
    hide Elf.Load, Elf.HeaderIn, Sparing, Built;
    LoadedOutside(m0, img, base);
  }

  /** Loading a program keeps the isolation of all others: their spaces stay as built, and the new one joins them. */
  lemma LoadKeepsInv(m0: seq<byte>, bump: nat, img: seq<byte>, base: u64, boot: nat, m: seq<byte>, bump': nat, t: Task,
                     spaces: seq<Space>)
    requires LoadedAs(m0, bump, img, base, boot, m, bump', t) && 0 < base && Sparing(m0, img, base)
    requires KernelPlaced(boot, base) && Inv(boot, World(m0, bump, spaces))
    ensures Inv(boot, World(m, bump', spaces + [Space(t.cr3, base)]))
  {
    hide Elf.Load, Elf.HeaderIn, Sparing, Inv, Created, Put, Safe;
    var m1, m2 := Put(m0, STAGE, img), Loading(m0, img, base).mem;
    LoadedOutside(m0, img, base);
    KernelWriteKeepsInv(boot, World(m0, bump, spaces), m1, STAGE, STAGE + |img|);
    KernelWriteKeepsInv(boot, World(m1, bump, spaces), m2, base, base + WINDOW);
    NewSpace(m0, bump, img, base, boot, m, bump', t);
    CreateKeepsInv(boot, World(m2, bump, spaces), base, World(m, bump', spaces + [Space(t.cr3, base)]), t.cr3);
  }

  /** The new space is built in three fresh pages, and CR3 points to it. */
  lemma NewSpace(m0: seq<byte>, bump: nat, img: seq<byte>, base: u64, boot: nat, m: seq<byte>, bump': nat, t: Task)
    requires LoadedAs(m0, bump, img, base, boot, m, bump', t)
    ensures POOL_BASE <= t.cr3 == bump && bump' == bump + 3 * TABLE && Built(m, boot, t.cr3, base)
  {
    hide Elf.Load, Elf.HeaderIn, Built;
  }

  // ---- Starting a program with arguments ------------------------------------

  /** How a start ends: an error before ring 3, or what ring 3 is entered with. */
  datatype Start = Failed | Started(task: Task, rsp: nat)

  /** A successful start: a loaded program (giving built), then the stack image at the top of its window. */
  ghost predicate StartedWith(m0: seq<byte>, bump: nat, img: seq<byte>, boot: nat, built: seq<byte>, m: seq<byte>, bump': nat,
                              words: seq<seq<byte>>, r: Start)
  {
    && r.Started? && LoadedAs(m0, bump, img, USER_CODE_BASE, boot, built, bump', r.task)
    && SameOutside(built, m, r.rsp, USER_STACK_TOP) && USER_CODE_BASE <= r.rsp <= USER_STACK_TOP
    && (words == [] ==> r.rsp == USER_STACK_TOP)
    && (words != [] ==> Args.AbiStack(m, r.rsp, words) && Args.Pieces(m, r.rsp, USER_STACK_TOP, words))
    && (words != [] ==> (r.rsp + 8 * (|words| + 2)) % 16 == 0)
  }

  /** Starts the named program with the given arguments; the words are the C strings they point to. */
  method RunTask(fs: Vfs.FileSystem, vmm: Allocator, name: seq<byte>, src: seq<byte>, argv: Option<seq<nat>>, argc: int,
                 ghost words: seq<seq<byte>>) returns (r: Start, ghost built: seq<byte>)
    requires fs.Valid() && vmm.Valid() && BootTables(vmm.ram[..], vmm.boot) && KernelPlaced(vmm.boot, USER_CODE_BASE) && NulFree(name)
    requires LeavesTables(vmm.ram[..], FileOf(fs, name), USER_CODE_BASE, vmm.boot)
    requires |words| == Args.Count(argv, argc) && (argv.Some? ==> |words| <= |argv.value|)
    requires forall i | 0 <= i < |words| :: IsCString(src, argv.value[i], words[i])
    requires words != [] ==> Args.EntryRsp(USER_STACK_TOP, words) >= USER_CODE_BASE
    modifies vmm`bump, vmm.ram
    ensures vmm.Valid() && BootTables(vmm.ram[..], vmm.boot)
    ensures LoadEffect(old(vmm.ram[..]), old(vmm.bump), FileOf(fs, name), USER_CODE_BASE, vmm.boot, built, vmm.bump,
                       if r.Started? then Some(r.task) else None)
    ensures r == Failed ==> vmm.ram[..] == built
    ensures r.Started? ==>
              StartedWith(old(vmm.ram[..]), old(vmm.bump), Staged(FileOf(fs, name).value), vmm.boot, built, vmm.ram[..], vmm.bump, words, r)
  {
    hide LeavesTables, Loading, LoadedAs, Args.AbiStack, Args.Pieces, Args.EntryRsp, IsCString, FileOf, BootTables, Staged, Safe;
    var t := LoadTask(fs, vmm, name, USER_CODE_BASE);
    built := vmm.ram[..];
    if t == None { return Failed, built; }
    Args.EntryBelowTop(USER_STACK_TOP, words);
    var rsp := Args.BuildArgs(vmm.ram, USER_STACK_TOP, src, argv, argc, words);
    BootFrame(built, vmm.ram[..], rsp, USER_STACK_TOP, vmm.boot);
    r := Started(t.value, rsp);
  }

  /** The new space is built as the memory is entered with, and CR3 points to it. */
  lemma StartBuildsSpace(m0: seq<byte>, bump: nat, img: seq<byte>, boot: nat, built: seq<byte>, m: seq<byte>, bump': nat,
                         words: seq<seq<byte>>, r: Start)
    requires StartedWith(m0, bump, img, boot, built, m, bump', words, r)
    ensures r.task.cr3 == bump && bump' == bump + 3 * TABLE && Built(m, boot, r.task.cr3, USER_CODE_BASE)
  {
    hide LoadedAs, Args.AbiStack, Args.Pieces, Built;
    NewSpace(m0, bump, img, USER_CODE_BASE, boot, built, bump', r.task);
    PoolBelowWindow(m0, bump, img, boot, built, bump', r.task);
    BuiltFrame(built, m, r.rsp, USER_STACK_TOP, boot, r.task.cr3, USER_CODE_BASE);
  }

  lemma PoolBelowWindow(m0: seq<byte>, bump: nat, img: seq<byte>, boot: nat, m: seq<byte>, bump': nat, t: Task)
    requires LoadedAs(m0, bump, img, USER_CODE_BASE, boot, m, bump', t)
    ensures bump' <= POOL_END <= USER_CODE_BASE && |m| == GIB4
  {
    hide Elf.Load, Elf.HeaderIn, Built;
  }

  /** Through its own tables the program can read and write its whole window at its own addresses, the stack image included. */
  lemma StackIsMapped(m0: seq<byte>, bump: nat, img: seq<byte>, boot: nat, built: seq<byte>, m: seq<byte>, bump': nat,
                      words: seq<seq<byte>>, r: Start, a: u64)
    requires StartedWith(m0, bump, img, boot, built, m, bump', words, r) && BootTables(m, boot)
    ensures UserWritable(m, r.task.cr3, a) <==> USER_CODE_BASE <= a < USER_STACK_TOP
    ensures r.rsp <= a < USER_STACK_TOP ==> Walk(m, r.task.cr3, a) == Some(Access(a, true, true))
  {
    hide LoadedAs, Args.AbiStack, Args.Pieces, Walk, Built, BootTables;
    StartBuildsSpace(m0, bump, img, boot, built, m, bump', words, r);
    AlignedWindow(m, boot, r.task.cr3, USER_CODE_BASE, a);
    WalkBuilt(m, boot, r.task.cr3, USER_CODE_BASE, a);
    WindowPages(USER_CODE_BASE, a);
  }

  /** A start changes nothing but the staging area, the window and the three new pages of the pool. */
  lemma StartTouches(m0: seq<byte>, bump: nat, img: seq<byte>, boot: nat, built: seq<byte>, m: seq<byte>, bump': nat,
                     words: seq<seq<byte>>, r: Start, a: nat)
    requires StartedWith(m0, bump, img, boot, built, m, bump', words, r) && |m0| == GIB4 && |img| <= STAGE_MAX && Sparing(m0, img, USER_CODE_BASE)
    requires a < GIB4 && !(STAGE <= a < STAGE + |img|) && !(USER_CODE_BASE <= a < USER_STACK_TOP) && !(bump <= a < bump')
    ensures |m| == |m0| && m[a] == m0[a]
  {
    hide LoadedAs, Sparing, Args.AbiStack, Args.Pieces;
    LoadTouches(m0, bump, img, USER_CODE_BASE, boot, built, bump', r.task, a);
  }

  /** Starting a program keeps the isolation of all others. */
  lemma StartKeepsInv(m0: seq<byte>, bump: nat, img: seq<byte>, boot: nat, built: seq<byte>, m: seq<byte>, bump': nat,
                      words: seq<seq<byte>>, r: Start, spaces: seq<Space>)
    requires StartedWith(m0, bump, img, boot, built, m, bump', words, r) && |m0| == GIB4 && |img| <= STAGE_MAX && Sparing(m0, img, USER_CODE_BASE)
    requires KernelPlaced(boot, USER_CODE_BASE) && Inv(boot, World(m0, bump, spaces))
    ensures Inv(boot, World(m, bump', spaces + [Space(r.task.cr3, USER_CODE_BASE)]))
  {
    hide LoadedAs, Sparing, Args.AbiStack, Args.Pieces, Inv, Safe;
    LoadKeepsInv(m0, bump, img, USER_CODE_BASE, boot, built, bump', r.task, spaces);
    KernelWriteKeepsInv(boot, World(built, bump', spaces + [Space(r.task.cr3, USER_CODE_BASE)]), m, r.rsp, USER_STACK_TOP);
  }

  // ---- The run command ------------------------------------------------------

  /** The run command from its argument text on; None is the usage message for an empty line. */
  method RunCommand(fs: Vfs.FileSystem, vmm: Allocator, args: seq<byte>) returns (r: Option<Start>, ghost built: seq<byte>)
    requires fs.Valid() && vmm.Valid() && BootTables(vmm.ram[..], vmm.boot) && KernelPlaced(vmm.boot, USER_CODE_BASE)
    requires |args| <= Args.CMD_MAX && NulFree(args)
    requires var words := Args.First8(Args.Tokens(args));
             words != [] ==> LeavesTables(vmm.ram[..], FileOf(fs, words[0]), USER_CODE_BASE, vmm.boot)
    modifies vmm`bump, vmm.ram
    ensures vmm.Valid() && BootTables(vmm.ram[..], vmm.boot)
    ensures var words := Args.First8(Args.Tokens(args));
            if words == [] then r == None && vmm.ram[..] == old(vmm.ram[..]) && vmm.bump == old(vmm.bump)
            else
              var file := FileOf(fs, words[0]);
              && r.Some?
              && (r.value.Started? <==>
                    file.Some? && file.value != [] && Loading(old(vmm.ram[..]), Staged(file.value), USER_CODE_BASE).code == 0 && Fits(old(vmm.bump)))
              && (r.value.Started? ==>
                    StartedWith(old(vmm.ram[..]), old(vmm.bump), Staged(file.value), vmm.boot, built, vmm.ram[..], vmm.bump, words, r.value))
              && (r.value.Failed? ==>
                    LoadEffect(old(vmm.ram[..]), old(vmm.bump), file, USER_CODE_BASE, vmm.boot, vmm.ram[..], vmm.bump, None))
  {
    hide LeavesTables, Loading, LoadedAs, StartedWith, Args.AbiStack, Args.Pieces, Args.EntryRsp, Args.Tokens, IsCString, FileOf, BootTables, Staged, Safe;
    built := [];
    var buf, av, ac;
    ghost var words;
    buf, av, ac, words := Args.Tokenize(args);
    if ac == 0 { return None, built; }
    Args.WordsAreStrings(buf[..], av[..ac], words, |args| + 1);
    Args.RoomOfTokens(args);
    Args.RoomEnough(USER_STACK_TOP, words);
    var len := Args.CLength(buf[..], av[0], words[0]);
    Args.TextOfString(buf[..], av[0], words[0]);
    var name := buf[..][av[0]..av[0] + len];
    assert name == words[0] by { assert name == (words[0] + [0])[..len]; }
    var s;
    s, built := RunTask(fs, vmm, name, buf[..], Some(av[..ac]), ac, words);
    r := Some(s);
  }
}
