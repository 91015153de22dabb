# SAM OS: a verified model of the kernel's core

SAM OS is a bare-metal x86-64 kernel. This project models its hard parts in Dafny and proves what
they promise:

- **Address spaces and isolation** (`Bytes`, `Paging`, `Vmm`, `BootMap`, `Isolation`): physical
  memory is a byte sequence that contains the page tables; a four-level walk reads them; the
  boot loops and the bump allocator write them. Since ring-3 stores go through the same tables,
  isolation is an invariant over all runs of creations and stores.
- **Preemption** (`Frames`, `Sched`, `Preempt`): the register frame, the interrupt dispatcher and
  the round-robin rotation, over an arbitrary instruction set and ticks at arbitrary times.
  Projecting an interleaved run onto one task gives the run of that task alone; the books of the
  scheduler balance.
- **Device discovery** (`Pci`): the mutually recursive scan of an arbitrary, possibly cyclic bus
  graph against reachability, and the machine profile against a comprehension over the functions found.
- **INT8 kernels** (`Simd`): the biased, saturating vector paths against the scalar loop, with the
  exact error term, the sharp bound on the weights, and the matrix product.
- **Model files** (`Stf`, `StfRoundTrip`, `Utf8`, `Gguf`, `GgufRoundTrip`, `GgufTensors`): the Python writer
  and the C reader of one byte format, with the recursive GGUF reader in front, from typed elements to
  the bytes the kernel finds.
- **Starting programs** (`Args`, `Vfs`, `Ustar`, `Elf`, `Launch`, `Pair`): command line, archive,
  executable loader and argument stack, each on raw bytes, and their composition with the address-space
  allocator on one memory. The loader's run is a function of memory alone, for every image. Two programs
  loaded side by side satisfy the hypotheses of the preemption theorems.
- **Keyboard** (`Keyboard`): an interrupt producer against a foreground consumer, and line editing.

Code that changes things step by step is a method or a class with the same fields and loops, proved
against a function of the inputs or of the old state; the properties are lemmas about those functions.
Where program and specification share a reader of fields, codes or registers, a lemma states that reader
on literal bytes. Machine integers are explicit: wrap-around, truncation and saturation are written out where they occur.

Parameters standing for the outside: PCI configuration reads are a fixed function of bus, device,
function and register; ticks, keyboard interrupts and ring-3 instructions are arbitrary; text on the
converter's command line is given by its UTF-8 encoding.

Where code and comments disagree, the code is modelled:

- The comment on address spaces speaks of a 4 MiB window. The code opens the two 2 MiB pages of its
  first and last byte, which is that window exactly for a 2 MiB aligned base in the first GiB
  (`Vmm.WalkBuilt`, `Vmm.WindowIffAligned`); the second task of a pair has an unaligned base
  (`Isolation.PairWindows`).
- The loader's header promises that segments outside the window are rejected. It checks the memory size
  only, and in 64-bit arithmetic, so more file bytes than memory bytes (`Elf.FileBytesPastWindow`) or a
  memory size that wraps (`Elf.ZerosPastWindow`) reach past the end. `Elf.LoadKeepsOutside` gives
  the missing check for every image, and `Elf.KeepsOutsideIff` shows that it is exact. The checks on the
  header table and on p_offset + p_filesz wrap in the same way (`Elf.TableInsideIff`, `Elf.ReadsInsideIff`).
- The matrix comment asks for K to be a multiple of 16 or 32; the code handles every K (`Simd.MatMul`).
- The reader's archive comment speaks of names of 100 characters; 99 are kept.

## Model

| member | source | states |
|---|---|---|
| `BootMap.BuildIdentityMap` | kernel/boot.asm:153-231 | the boot loops turn six zeroed pages into the 4 GiB identity map, and write nothing else: walking the finished tables gives every address below 4 GiB itself, writable, open to ring 3 below 2 GiB, and nothing above |
| `BootMap.FillDirectory` | kernel/boot.asm:185-231 | one counted loop fills a directory: entry j of GiB k is the page at k GiB + j * 2 MiB with flags 0x87 or 0x83 |
| `BootMap.StoreEntry` | kernel/boot.asm:188-190 | a 32-bit store of the low half sets a zero 64-bit entry to that value and leaves the other entries |
| `BootMap.LowHalf` | kernel/boot.asm:188-190 | the half-width store is a full store because the page was zero |
| `BootMap.StorePdpt` | kernel/boot.asm:160-179 | PML4[0] and PDPT[0..3] as wired, GiB 2-3 without the user bit |
| `Vmm.WalkBuilt` | kernel/vmm.h:58-87 | for every base and every address: below 4 GiB the translation is the identity and writable, user access holds iff the address is in one of the two pages of the window, and nothing above is mapped (Intel SDM Vol. 3A, sections 4.5 and 4.6) |
| `Vmm.AlignedWindow` | kernel/vmm.h:54-58 | when base is 2 MiB aligned and the window lies in GiB 0, ring 3 can write exactly [base, base + 4 MiB) |
| `Vmm.WindowIffAligned` | kernel/vmm.h:54-58 | ring 3 gets exactly the documented window if and only if base is 2 MiB aligned and the window ends inside the first GiB |
| `Vmm.WalkAbove` | kernel/vmm.h:64-74 | no address from 4 GiB up is mapped |
| `Vmm.WalkGibHigh` | kernel/vmm.h:69-74 | GiB 1-3 translate through the shared boot directories without user access |
| `Vmm.WalkGib0` | kernel/vmm.h:76-83 | GiB 0 translates through the fresh directory, user only for the window pages |
| `Vmm.EntryParts` | kernel/vmm.h:64-83 | an entry made of a page address and flag bits reads back as those two |
| `Vmm.BootFrame` | kernel/vmm.h:37-51 | a write outside the boot tables leaves them as built |
| `Vmm.BuiltFrame` | kernel/vmm.h:45-87 | a write outside its three pages leaves a built space as built |
| `Vmm.Allocator.Init` | kernel/vmm.h:94-97 | empties the pool |
| `Vmm.Allocator.AllocPt` | kernel/vmm.h:44-51 | one zeroed page at the bump pointer, or null with nothing changed when the pool is exhausted |
| `Vmm.Allocator.ClonePdptEntry` | kernel/vmm.h:73-74 | a boot PDPT entry copied with its user bit stripped, all other entries kept |
| `Vmm.Allocator.FillPdpt` | kernel/vmm.h:69-74 | the whole new PDPT, writing only its page |
| `Vmm.Allocator.FillPd` | kernel/vmm.h:76-83 | the whole new directory, the two window pages opened even when they coincide |
| `Vmm.Allocator.WireTables` | kernel/vmm.h:64-83 | three finished tables in three pages, boot tables untouched |
| `Vmm.Allocator.CreateUserAsAt` | kernel/vmm.h:58-87 | success: a built space at the old bump pointer; failure: 0 with the pool used up; in both cases nothing outside the newly taken pages changes |
| `Vmm.KernelEntry` | kernel/vmm.h:74 | clearing bit 2 and setting bits 0-1 gives the supervisor entry of the same table |
| `Vmm.OpenedPage` | kernel/vmm.h:82-83 | setting bit 2 opens a large page, once or twice |
| `Vmm.WalkBoot` | kernel/boot.asm:153-231 | by the page walk alone: the boot tables translate the first 4 GiB to themselves, open to ring 3 below 2 GiB, and nothing else |
| `Isolation.StoreEffect` | kernel/vmm.h:64-83 | a ring-3 store through the tables in memory changes that byte iff it lies in the task's window, and otherwise faults and changes nothing |
| `Isolation.StoreKeepsInv` | kernel/vmm.h:58-87 | no ring-3 store reaches a page-table word |
| `Isolation.CreateKeepsInv` | kernel/vmm.h:45-87 | a further creation, successful or not, keeps every earlier space as built, in distinct pages of the pool |
| `Isolation.KernelWriteKeepsInv` | kernel/main.c:403-411 | loading a program clear of the pool and the boot tables keeps every space as built |
| `Isolation.RunKeepsInv` | kernel/vmm.h:45-87 | over every interleaving of program loads, creations and stores the tables stay as built |
| `Isolation.RunIsolation` | kernel/vmm.h:45-87 | whole runs: every translation of every existing space is unchanged, and a byte changes only by a store of a task whose window holds it, by a program load over it, or by becoming a new table |
| `Isolation.IdleTaskUntouched` | kernel/vmm.h:54-58 | the bytes of a task that does not store survive all others' stores when the windows differ |
| `Isolation.PoolCapacity` | kernel/vmm.h:45-62 | from an empty pool exactly the first 341 creations succeed, and the pool is consumed three pages at a time |
| `Isolation.PairWindows` | kernel/main.c:386-415 | the two resident tasks: the exact bytes each may touch; the second base is not 2 MiB aligned, so its pages are [0x19400000,0x19600000) and [0x19800000,0x19A00000) |
| `Frames.Core.Enter` | kernel/idt.h:188-211 | the pushes of processor and stubs put the registers on the stack in frame order |
| `Frames.Core.Leave` | kernel/idt.h:214-233 | the pops restore the registers from whatever frame the dispatcher left |
| `Frames.Core.Resume` | kernel/userasm.asm:90-118 | loading through rcx and returning sets every register from the saved frame and CR3 from the argument |
| `Frames.Core.UserEnter` | kernel/syscall.h:105-129 | the first entry to ring 3: entry point, stack, selectors and flags as given, CR3 switched, the kernel's saved |
| `Frames.Core.LoadLegacy` | kernel/userasm.asm:112-117 | rcx is loaded last, so every other load still finds the frame |
| `Frames.Core.EnterAndLeave` | kernel/idt.h:188-233 | an interrupt that returns leaves registers, stack and CR3 as they were |
| `Frames.Core.EnterAndResume` | kernel/userasm.asm:90-118 | a snapshot taken by the entry stub and resumed later restores the same registers |
| `Sched.Scheduler.MarkStart` | kernel/syscall.h:90-100 | first dispatch: the frame quad by quad, with entry point, CS 0x1B, flags 0x202, stack and SS 0x23; a started task keeps its snapshot |
| `Sched.FirstFrame` | kernel/syscall.h:90-100 | the whole register file of a first dispatch: entry point, stack, ring-3 selectors 0x1B and 0x23, flags 0x202, every other register 0 |
| `Sched.FirstDispatch` | kernel/syscall.h:140-153 | the tick that ends a slice hands a task that has never run exactly that register file, in its own space |
| `Sched.KernelUndisturbed` | kernel/syscall.h:138-176 | a tick in kernel code only counts, and a page fault in kernel code stops the machine |
| `Sched.WireOneMore` | kernel/main.c:112-116 | on the wire a newline is two bytes and every other byte is itself |
| `Sched.Scheduler.Tick` | kernel/syscall.h:140-155 | tick and slice counting, snapshot, rotation and the frame and CR3 resumed |
| `Sched.Scheduler.Syscall` | kernel/syscall.h:179-217 | the three system calls and the error for others; written bytes go to the serial port in order, a carriage return before each newline |
| `Sched.Scheduler.PutChar` | kernel/main.c:112-116 | one byte to the serial port, newlines expanded |
| `Sched.WireUndone` | kernel/main.c:112-116 | the expanded output determines the text written |
| `Sched.Scheduler.Dispatch` | kernel/syscall.h:138-176 | each vector reaches its handler; a ring-3 page fault ends the running task |
| `Sched.Scheduler.LaunchPair` | kernel/main.c:423-435 | both tasks in play, task 0 current with a fresh slice |
| `Sched.Scheduler.ResumeSurvivor` | kernel/main.c:459-462 | the other task is resumed from its snapshot if it had started, else from its initial frame |
| `Preempt.FrameRoundTrip` | kernel/idt.h:56-65 | the frame layout stored by the stub and read by the dispatcher agree field by field |
| `Preempt.SwitchKeepsCpus` | kernel/syscall.h:145-152 | a task switch changes no task's next registers |
| `Preempt.TimerTransparent` | kernel/syscall.h:140-155 | a tick, with or without a switch, changes no task's registers, view of memory, output or end |
| `Preempt.TimerKeepsRing3` | kernel/syscall.h:140-155 | a tick keeps every task in ring 3 and the running one started |
| `Preempt.SyscallAnswer` | kernel/syscall.h:179-217 | the handler's answer is the one the task would get by itself |
| `Preempt.FaultProjects` | kernel/syscall.h:166-171 | a ring-3 page fault ends exactly the running task |
| `Preempt.TrapProjects` | kernel/syscall.h:157-176 | every other ring-3 exception stops the machine, at the instruction at which the running task by itself would |
| `Preempt.StoreViews` | kernel/vmm.h:64-83 | one more byte in memory is one more byte in its owner's view and in no other |
| `Preempt.StoresProject` | kernel/vmm.h:64-83 | the same for all the bytes an instruction stores |
| `Preempt.StorableIsVisible` | kernel/vmm.h:64-83 | ring 3 can store exactly where it can read |
| `Preempt.ExecProjects` | kernel/syscall.h:138-217 | one instruction of the machine is one instruction of the running task alone and none of any other |
| `Preempt.TransparentPreemption` | kernel/syscall.h:90-156 | for every instruction set, with stores of any number of bytes, any number of tasks and any tick timing, with exceptions of every vector, up to the first end or to the exception that stops the machine each task's registers, memory, output and stop equal those of the task running alone for the instructions it was given |
| `Preempt.SurvivorResumes` | kernel/main.c:440-463 | at the first end the other task is put back with exactly the registers, memory and output of its own run alone |
| `Preempt.EndIsCurrent` | kernel/syscall.h:166-171 | the ended task is the current one |
| `Preempt.PairIsPlaced` | kernel/main.c:386-425 | the two resident tasks meet the placement hypothesis of the run theorems |
| `Preempt.LaunchInRing3` | kernel/main.c:414-436 | after launch all tasks are in ring 3, and every one not yet started will begin with its entry point and stack, CS 0x1B, SS 0x23, flags 0x202 and all other registers 0 |
| `Preempt.AccountsBalance` | kernel/syscall.h:142-151 | in every run, whatever the tasks write and wherever their windows lie: 3 * preemptions + slice ticks == ticks since launch, the current task is preemptions mod tasks, and the exact ticks charged to each task |
| `Preempt.Fairness` | kernel/syscall.h:142-151 | in every run the ticks charged to any two resident tasks differ by at most 3, for any number of tasks |
| `Pci.Scanner.MarkBus` | kernel/mcp.h:321-326 | the 32-byte bitmap refines a set of buses: test and insert |
| `Pci.Scanner.Classify` | kernel/mcp.h:330-401 | one function's effect on the profile, counters wrapping at 8 and 16 bits |
| `Pci.Scanner.ClassifyDisplay` | kernel/mcp.h:345-356 | graphics class none, integrated, multi; identifiers of the first display function |
| `Pci.Scanner.ClassifyStorage` | kernel/mcp.h:359-385 | storage flags and counter, first nonzero AHCI base |
| `Pci.Scanner.ClassifyConnectivity` | kernel/mcp.h:388-398 | network, USB and audio flags |
| `Pci.Scanner.ScanFunction` | kernel/mcp.h:416-425 | a function is classified and the bus behind a bridge is scanned |
| `Pci.Scanner.ScanDevice` | kernel/mcp.h:406-445 | all functions of a device, 1-7 only when it is multifunction |
| `Pci.Scanner.ScanBus` | kernel/mcp.h:447-451 | from any visited set: the newly visited buses are reachable and closed under bridge edges, and each of their functions is classified once; terminates on cyclic graphs |
| `Pci.Scanner.Reset` | kernel/mcp.h:454-460 | clears bitmap and scratch fields, presets the ATA base |
| `Pci.Scanner.ScanPci` | kernel/mcp.h:453-466 | marks exactly the buses reachable from bus 0, classifies each existing function on them exactly once, and leaves the inventory of that set |
| `Pci.ReachStaysIn` | kernel/mcp.h:447-451 | a visited set closed under bridge edges holds every bus reachable from its members |
| `Pci.CoversConcat` | kernel/mcp.h:428-444 | two stretches of the scan compose without repeating a function |
| `Pci.CoversFunction` | kernel/mcp.h:416-425 | a function plus the scan of the bus behind it is a stretch of the scan of its own bus |
| `Pci.CoversBus` | kernel/mcp.h:447-451 | the scans of its devices make up the scan of a bus |
| `Pci.InventoryOfLog` | kernel/mcp.h:330-401 | whatever the order, the profile equals the comprehension over the set of functions classified |
| `Pci.CountsStep` | kernel/mcp.h:342-356 | one more function: device count, storage count and graphics class move together with the set |
| `Pci.FlagsStep` | kernel/mcp.h:359-398 | one more function: each flag is set iff some function of the set has that class |
| `Pci.BasesStep` | kernel/mcp.h:362-378 | the AHCI base is that of some controller of the set; the preset ATA base is never replaced |
| `Pci.WholeScan` | kernel/mcp.h:453-466 | soundness and completeness of the finished scan, and its inventory |
| `Pci.RegisterLayout` | kernel/mcp.h:338-340 | the scan's shifts and masks against configuration bytes: secondary bus at 0x19, header type at 0x0E, class, subclass and interface at 0x0B, 0x0A and 0x09 |
| `Pci.SecondaryIsBehind` | kernel/mcp.h:419-424 | with bytes p, s, u, l in register 0x18 the bus behind a bridge is s, and s is the edge of the bus graph |
| `Pci.HeaderTypeIs` | kernel/mcp.h:411-414 | with byte 2 of register 0x0C equal to h: a bridge iff h is 0x01 or 0x81, multifunction iff h is at least 0x80 |
| `Pci.EdgeIff` | kernel/mcp.h:406-445 | the edges of the bus graph in configuration bytes alone: which functions answer, which are bridges, and where they lead |
| `Pci.KindBytes` | kernel/mcp.h:342-398 | every kind of the inventory by its class, subclass and interface bytes |
| `Pci.AbarBytes` | kernel/mcp.h:362-365 | the AHCI base is the dword at 0x24 with its four attribute bits cleared |
| `Pci.AtaBytes` | kernel/mcp.h:368-380 | the I/O base of a legacy controller, by interface bit 0 and the first base address |
| `Pci.GpuOfLog` | kernel/mcp.h:345-356 | the identifiers kept are the vendor and device bytes of the first display function met |
| `Simd.DotScalar` | kernel/simd.h:102-108 | the scalar loop is the dot product modulo 2^32 |
| `Simd.MaddubsSum` | kernel/simd.h:136-140 | the saturating 16-bit products add up to the biased dot product plus exactly the clamping errors |
| `Simd.MaddOnesSum` | kernel/simd.h:142-143 | widening and pairwise adding keeps the lane sum |
| `Simd.AddLanesSum` | kernel/simd.h:145 | adding into the accumulator keeps the lane sum modulo 2^32 |
| `Simd.Accumulate` | kernel/simd.h:126-146 | the vector loop: lane sum of the accumulator over all whole blocks |
| `Simd.Reduce4` | kernel/simd.h:148-153 | two shuffles and adds give the lane sum modulo 2^32 |
| `Simd.Finish` | kernel/simd.h:155-163 | bias compensation and scalar tail give the dot product plus the errors of the vectorised part |
| `Simd.DotSse42` | kernel/simd.h:124-166 | for all vectors and lengths: scalar result plus the clamping errors of the whole 16-element blocks, modulo 2^32 |
| `Simd.DotAvx2` | kernel/simd.h:182-219 | the same with 32-element blocks |
| `Simd.Int8Dot` | kernel/simd.h:226-235 | the dispatch on level and build, one formula for every path |
| `Simd.PathsAgree` | kernel/simd.h:226-235 | with weights in [-64,64] every path equals the scalar one, for all lengths |
| `Simd.NoErrors` | kernel/simd.h:139-140 | no 16-bit lane clamps for weights in [-64,64] |
| `Simd.AgreesIff` | kernel/simd.h:226-235 | the exact condition on the weights: a vector path equals the scalar one for all activations iff no adjacent pair in its whole blocks has positive parts, or negative parts, adding up to more than 128 |
| `Simd.WithinFits` | kernel/simd.h:139-140 | weights in [-64,64] meet that condition |
| `Simd.BoundIsSharp` | kernel/simd.h:139-140 | 64 is the largest such bound: with weight 65 one block gives 129016 at the SSE4.2 level and 132080 at the scalar one |
| `Simd.LowerClamp` | kernel/simd.h:139-140 | both ends of the 16-bit saturation, by the errors of single pairs |
| `Simd.LevelResults` | kernel/simd.h:226-235 | each level's result by the number of whole blocks it takes: 32 elements with AVX2, 16 with SSE4.2, none when not built in or scalar |
| `Simd.OneBlock` | kernel/simd.h:226-235 | on 16 elements SSE4.2 takes one block and AVX2 none; on 32 both take everything |
| `Simd.ExactDot` | kernel/simd.h:102-108 | up to 131071 elements the result does not wrap at all |
| `Simd.NoSignedOverflow` | kernel/simd.h:155-160 | up to 131071 elements with weights in [-64,64] the biased sum and the compensation fit 32 bits |
| `Simd.MatMul` | kernel/simd.h:257-272 | writes exactly the M * N cells, each the dispatched dot product of its rows, tails included |
| `Simd.MatMulIsProduct` | kernel/simd.h:240-250 | with B_T entries in [-64,64] and K <= 131071 C[x * N + y] is the exact matrix product entry, at every level |
| `Stf.ComputeOffsets` | tools/to_stf.py:90-96 | the first pass computes the aligned offset of each blob |
| `Stf.PackDescs` | tools/to_stf.py:99-101 | the descriptor table, or the packing error, whichever tensor causes it |
| `Stf.WriteBlobs` | tools/to_stf.py:107-114 | the data section, each blob padded to its offset |
| `Stf.WriteStf` | tools/to_stf.py:82-118 | the whole file, or the error of a field out of range |
| `Stf.SameName` | kernel/stf.h:145-152 | the character loop decides equality of C strings whenever it stops inside the buffer |
| `Stf.NamesComparable` | kernel/stf.h:116-131 | in a loaded file it does so for every name of up to 128 bytes, whatever the file holds |
| `Stf.Find` | kernel/stf.h:140-156 | the first tensor of that name, none iff there is none |
| `Stf.LoadVerdict` | kernel/stf.h:103-137 | for every buffer, on its bytes: accepted with its data offset and count, or which of the seven errors |
| `Stf.DataRefusedIff` | kernel/stf.h:160-167 | for every loaded file: a null data pointer exactly when offset plus size, in bytes 104 to 119 of the descriptor, leaves the buffer |
| `StfRoundTrip.LoadWritten` | kernel/stf.h:103-137 | the reader's exact verdict on every written file: -4 for no or more than 256 tensors, -6 when there are no data bytes, else accepted |
| `StfRoundTrip.HeaderFields` | tools/to_stf.py:54-67 | the header fields read back |
| `StfRoundTrip.DescFields` | tools/to_stf.py:69-80 | the descriptor fields read back |
| `StfRoundTrip.ShapeFields` | tools/to_stf.py:72-76 | a shape of at most four dimensions reads back |
| `StfRoundTrip.NameInFile` | tools/to_stf.py:70-71 | a NUL-free name of at most 63 bytes is the C string of its field |
| `StfRoundTrip.NameField` | tools/to_stf.py:55-56 | names of any length: cut to leave room for a NUL, NULs behind |
| `StfRoundTrip.BlobLayout` | tools/to_stf.py:90-114 | blobs do not overlap and follow one another |
| `StfRoundTrip.OffsetAligned` | tools/to_stf.py:49-50 | every blob offset is a multiple of 64 |
| `StfRoundTrip.TensorReadBack` | kernel/stf.h:139-156 | name, dtype and shape of each tensor of the loaded file |
| `StfRoundTrip.DataReadBack` | kernel/stf.h:160-167 | the data pointer of each tensor gives exactly its bytes |
| `StfRoundTrip.FindIn` | kernel/stf.h:117-167 | load, find and data on a written file return tensor i |
| `StfRoundTrip.WriteLoadFind` | tools/to_stf.py:82-118 | round trip: write, load, find by name and read return the same tensor |
| `StfRoundTrip.OnlyMatch` | kernel/stf.h:140-156 | with distinct names the search can only end at the tensor asked for |
| `Gguf.Reader.NextString` | tools/to_stf.py:215-219 | a string, decoded with errors replaced, and the position behind it |
| `Utf8.RepairKeepsIff` | tools/to_stf.py:218 | bytes survive decoding with replacement and encoding iff they are well-formed UTF-8 |
| `Utf8.RepairIsValid` | tools/to_stf.py:218 | the decoded text is always well-formed |
| `Utf8.WellFormedIff` | tools/to_stf.py:218 | the bytes that decoding keeps are exactly the encodings of sequences of Unicode scalar values (RFC 3629, section 3) |
| `Utf8.MaximalPart` | tools/to_stf.py:218 | each replaced piece is a maximal beginning of a character, or one byte |
| `Gguf.Reader.Skip` | tools/to_stf.py:221-238 | the moving position follows the recursive skipping of a value |
| `Gguf.Reader.SkipMetadata` | tools/to_stf.py:240-244 | all metadata pairs are passed over |
| `Gguf.Reader.Infos` | tools/to_stf.py:246-254 | the tensor descriptions in order |
| `Gguf.Reader.ReadGguf` | tools/to_stf.py:188-285 | the reader over arbitrary bytes: the tensors taken, or an error; what the numbers mean is in the rows on printed sources |
| `Gguf.MagicRequired` | tools/to_stf.py:207-211 | a file that yields tensors begins with the letters GGUF and a whole header |
| `Gguf.ScalarWidths` | tools/to_stf.py:221-238 | the widths of the eleven scalar types; unknown types take no bytes |
| `Gguf.SliceIs` | tools/to_stf.py:281 | a slice past the end of the file is cut off there |
| `GgufRoundTrip.StringBack` | tools/make_gguf_header.py:50-53 | a printed string reads back as decoded and is consumed exactly |
| `GgufRoundTrip.SkipExact` | tools/to_stf.py:221-238 | for all 13 types, arrays nested to any depth, skipping consumes exactly the printed value |
| `GgufRoundTrip.PairBack` | tools/make_gguf_header.py:55-57 | a printed pair is passed over exactly |
| `GgufRoundTrip.PairsBack` | tools/to_stf.py:240-244 | all printed pairs are passed over exactly |
| `GgufRoundTrip.InfoBack` | tools/to_stf.py:248-254 | a printed tensor description reads back with its name decoded |
| `GgufRoundTrip.InfosBack` | tools/to_stf.py:246-254 | all printed tensor descriptions read back in order, names decoded |
| `GgufRoundTrip.DecodedKeepsIff` | tools/to_stf.py:218 | the descriptions come back unchanged iff all names are well-formed UTF-8 |
| `GgufRoundTrip.ReadBack` | tools/to_stf.py:188-285 | of every well-formed file exactly the supported tensors selected by decoded name are taken, in order, with their original bytes |
| `GgufRoundTrip.Convert` | tools/to_stf.py:348-357 | reading, refusing an empty selection and writing |
| `GgufRoundTrip.ConvertThenFind` | tools/to_stf.py:188-285 | conversion preserves tensors: each selected tensor is found in the converted file under its decoded name with its dtype, shape and bytes |
| `GgufTensors.ConvertPrinted` | tools/to_stf.py:188-285 | from elements to elements: of a file printed from typed tensors, each chosen one is found after conversion under its decoded name, with the type number of its elements, its shape, and exactly the bytes of all its elements |
| `GgufTensors.WantedIsExpected` | tools/to_stf.py:259-283 | what the reader takes of such a file are the chosen tensors, in order, each with all the bytes printed for it |
| `GgufTensors.TypeAndCount` | tools/to_stf.py:266-280 | the byte count is that of the printed elements: 4 for a single, 2 for a half, 1 for a byte, 34 for each block of 32; the type numbers agree |
| `GgufTensors.ElementsIsSize` | tools/to_stf.py:268-269 | the running product is the number of elements of the shape |
| `GgufTensors.SectionStart` | tools/to_stf.py:256-257 | the data section starts at the first multiple of 32 behind the descriptions |
| `GgufTensors.SingleAt` | tools/to_stf.py:275-276 | element j of a printed tensor of singles is in bytes 4j to 4j + 3 |
| `GgufTensors.HalfAt` | tools/to_stf.py:273-274 | element j of a printed tensor of halves is in bytes 2j and 2j + 1 |
| `GgufTensors.BlockAt` | tools/to_stf.py:270-272 | block j of a printed quantised tensor is in bytes 34j to 34j + 33, scale first |
| `Args.SplitJoin` | kernel/shell.h:374-390 | the reference notion of words: splitting at spaces inverts joining by spaces |
| `Args.Tokenize` | kernel/shell.h:374-390 | the in-place tokenizer finds the first 8 words, each a C string in the buffer |
| `Args.SkipSpaces` | kernel/shell.h:385 | the run of spaces before a word |
| `Args.WordEnd` | kernel/shell.h:388 | the end of a word |
| `Args.TokensWord` | kernel/shell.h:387-388 | a word up to the next space is the first word of the line |
| `Args.CutWord` | kernel/shell.h:387-388 | writing the terminator completes a word and spoils neither earlier words nor the rest of the line |
| `Args.PushStrings` | kernel/main.c:274-284 | the strings, one below the other from the top |
| `Args.PushTable` | kernel/main.c:286-290 | the pointer table and its NULL |
| `Args.BuildArgs` | kernel/main.c:268-294 | argc at the returned rsp, pointers to the right strings, NULL at the end; all writes in [rsp, stktop); NULL or argc <= 0 writes nothing, more than 8 become 8 |
| `Args.EntryAligned` | kernel/main.c:285-288 | the end of the block is a multiple of 16 right below the strings, its start a multiple of 8 |
| `Args.PiecesDisjoint` | kernel/main.c:274-293 | strings, table and count do not overlap |
| `Args.AbiReads` | user/echo.asm:15-16 | the words are determined by what the program reads at [rsp] and [rsp+8+8i] |
| `Args.RoomOfTokens` | kernel/shell.h:376-379 | the words never need more stack than the line with its terminator |
| `Args.RoomEnough` | kernel/main.c:268-294 | 176 bytes of stack suffice for every command line |
| `Vfs.ParseOctal` | kernel/vfs.h:38-46 | the value of the leading octal digits |
| `Vfs.OctalField` | kernel/vfs.h:38-46 | a size field as archivers print it reads back |
| `Vfs.DigitAt` | kernel/vfs.h:38-46 | size fields are the usual octal numerals, most significant digit first |
| `Vfs.AdvanceWraps` | kernel/vfs.h:95-97 | when the 32-bit advance is exact, when it wraps, and when it is zero and ends the parse |
| `Vfs.ParseSafe` | kernel/vfs.h:51-102 | for arbitrary bytes: at most 16 entries, names with terminator within 101 bytes, data ranges inside the archive, and the return value |
| `Vfs.EntryFields` | kernel/vfs.h:76-92 | for every header block: name of up to 99 characters, data behind the header, size cut to 32 bits and to the end of the archive |
| `Vfs.ParseStops` | kernel/vfs.h:58-69 | where the parse stops: end, zero block, or a block that is not ustar, which is -2 when it is the first |
| `Vfs.FileSystem.FillEntry` | kernel/vfs.h:77-89 | one entry: slash, up to 99 name characters, size clamped to the archive |
| `Vfs.FileSystem.Init` | kernel/vfs.h:51-102 | the parse of any archive, terminating and reading only inside it; too small or null changes nothing |
| `Vfs.SameText` | kernel/vfs.h:109-113 | the character loop decides equality |
| `Vfs.FileSystem.Lookup` | kernel/vfs.h:105-117 | index of the first file of that name, -1 iff none |
| `Vfs.FileSystem.Open` | kernel/vfs.h:120-126 | the handle on the file at position 0, or unchanged |
| `Vfs.FileSystem.Read` | kernel/vfs.h:128-139 | the next bytes of the file land in memory, nothing else changes, the position advances; the count is returned as a 32-bit signed number |
| `Vfs.FileSystem.Close` | kernel/vfs.h:141-145 | closes the handle |
| `Vfs.ReadsConcatenate` | kernel/vfs.h:128-139 | any sequence of reads delivers a prefix of the file of exactly the asked-for total, cut at its end |
| `Ustar.HeaderBack` | kernel/vfs.h:70-97 | the parser reads a ustar header (POSIX.1-2017 pax, ustar Interchange Format) as the member it was written for |
| `Ustar.Padding` | kernel/vfs.h:94-97 | contents are padded to the next multiple of 512 |
| `Ustar.ParseLayout` | kernel/vfs.h:51-102 | of every laid-out archive exactly the regular members are registered in order; a seventeenth is the error -3 |
| `Ustar.EntryIsMember` | kernel/vfs.h:76-92 | each entry has its member's name behind a slash and its content |
| `Ustar.LookupMember` | kernel/vfs.h:105-117 | with distinct names each regular member is found at its own entry |
| `Ustar.MountAndRead` | kernel/vfs.h:51-139 | mount, open by name, read in any pieces: a prefix of the member's content |
| `Elf.LoadIn` | kernel/elf.h:46-86 | for every image in memory, well-formed or not, read outside itself or overwritten while it loads: return code, every byte of memory, and the entry point read from bytes 24 to 31 of the header after loading, only on 0; -1 iff the image is too short or not identified |
| `Elf.RefusedIff` | kernel/elf.h:50-60 | on the bytes of memory: code -1 iff shorter than 64 bytes or magic, class, byte order, type or machine is not that of a little-endian ELF64 executable for x86-64, memory then untouched; -2 for a header without program headers; 0 only for a header in order |
| `Elf.HeaderVerdict` | kernel/elf.h:53-62 | the verdict on the file header by its bytes: -1, -2, or -4 for a table whose end, cut to 64 bits, leaves the image |
| `Elf.HeaderFields` | kernel/elf.h:26-34 | where entry point, table offset, entry size and count stand in the header |
| `Elf.LoadHeaders` | kernel/elf.h:64-81 | the loop over the program headers: codes, stores in order, and how many were accepted |
| `Elf.LoadSegment` | kernel/elf.h:76-79 | copying and zeroing in place for one accepted header |
| `Elf.CopyBytes` | kernel/elf.h:78 | the byte loop, upwards, source and destination possibly overlapping |
| `Elf.RunFacts` | kernel/elf.h:65-81 | for every image: accepted headers start at or above lo and end, cut to 64 bits, at most at hi; a byte none of them covers is kept |
| `Elf.LoadKeepsOutside` | kernel/elf.h:46-86 | for every image and on every return code: memory outside [lo,hi) survives if every accepted header spares it |
| `Elf.KeepsOutsideIff` | kernel/elf.h:46-86 | an image read inside itself and not overwritten keeps the outside of every memory iff every accepted header is empty, ends by hi counting the larger of its two sizes, or lies beyond memory; sums of p_vaddr may wrap |
| `Elf.HarmlessIff` | kernel/elf.h:71-79 | that condition on one checked header is exactly that it covers no byte outside |
| `Elf.ApartKeeps` | kernel/elf.h:76-79 | bytes that all accepted headers miss are kept, for every image |
| `Elf.AcceptedIff` | kernel/elf.h:71-74 | what the checks accept in unbounded arithmetic: both sums are cut to 64 bits before they are compared |
| `Elf.ReadsInsideIff` | kernel/elf.h:74-77 | an accepted segment is read inside the image iff p_offset + p_filesz does not wrap |
| `Elf.ReadBelowImage` | kernel/elf.h:74-77 | an accepted header for which it does wrap |
| `Elf.TableInsideIff` | kernel/elf.h:61-67 | the header table of an accepted file header lies inside the image iff e_phoff plus its size does not wrap |
| `Elf.TableBelowImage` | kernel/elf.h:61-67 | an accepted file header for which it does wrap: its first program header is read 56 bytes below the image |
| `Elf.LoadIsPlan` | kernel/elf.h:46-86 | for an image read inside itself and not overwritten the byte-by-byte run is the plan that its bytes alone determine: return code, accepted headers, and their segments laid over memory in order |
| `Elf.LaidIsOverlay` | kernel/elf.h:76-79 | the two byte loops of one header that misses the image lay file bytes and then zeros over memory |
| `Elf.HeaderRead` | kernel/elf.h:66-68 | program header i is read from the image at e_phoff + i * e_phentsize |
| `Elf.LastSegmentWins` | kernel/elf.h:65-81 | each byte of memory is that of the last segment covering it: file bytes, then zeros; addresses run around the 64-bit space |
| `Elf.UncoveredKeeps` | kernel/elf.h:76-79 | memory no segment covers keeps its bytes |
| `Elf.ScanVerdict` | kernel/elf.h:65-83 | the header loop ends with 0 iff every program header is in the image and, if loadable, within bounds, and has then accepted all loadable ones in order; else with -3 or -4 |
| `Elf.ScanCode` | kernel/elf.h:67-74 | which code: the first header that is not acceptable gives -4 outside the image, -3 for its addresses, -4 for its file bytes |
| `Elf.LoadsIff` | kernel/elf.h:46-86 | return code 0 iff the file header is in order byte by byte, every program header is acceptable and there is a loadable one; then all loadable segments are taken in order; -2 when there is none |
| `Elf.OneSegmentLoads` | kernel/elf.h:46-86 | a printed one-segment executable loads as its segment |
| `Elf.FileBytesPastWindow` | kernel/elf.h:71-79 | an accepted image with p_filesz > p_memsz whose second file byte lands outside the window |
| `Elf.ZerosPastWindow` | kernel/elf.h:71-79 | an accepted image with p_filesz <= p_memsz whose p_vaddr + p_memsz wraps: its zeros run far past the window |
| `Launch.Stage` | kernel/main.c:305-318 | reading the file into the staging area: nothing for a missing or empty one, else at most its first 1 MiB |
| `Launch.LoadTask` | kernel/main.c:302-336 | loading for every window: starts iff the file exists, is not empty, loads, and the pool holds three more pages; memory on each outcome: staged image, the loader's stores, the three new tables |
| `Launch.WellReadLoading` | kernel/main.c:311-325 | for a well-read file what loading leaves is the staged image with its segments over it |
| `Launch.LoadTouches` | kernel/main.c:311-336 | loading a sparing file changes nothing but staging area, window and three new pages |
| `Launch.LoadKeepsInv` | kernel/main.c:302-336 | loading a program into any window keeps every other space as built and adds the new one |
| `Launch.SparingLeavesTables` | kernel/main.c:311-325 | a file that spares memory outside its window does not overwrite the kernel tables |
| `Launch.RunTask` | kernel/main.c:302-345 | the single task: what loading leaves on each outcome, and on success the argument stack |
| `Launch.StartBuildsSpace` | kernel/main.c:330-339 | the space entered is the one built in the three new pages, still intact after the stack was written |
| `Launch.StackIsMapped` | kernel/main.c:330-345 | through its own tables the program reaches exactly its window, the argument stack included, at its own addresses |
| `Launch.StartTouches` | kernel/main.c:311-339 | a start changes nothing but staging area, window and the three new pages when every segment spares the rest |
| `Launch.StartKeepsInv` | kernel/main.c:302-345 | starting a program keeps every other space as built and adds the new one |
| `Launch.RunCommand` | kernel/shell.h:374-412 | end to end from the command line: the named file is started and reads exactly the first 8 words on its stack |
| `Pair.LoadSlot` | kernel/main.c:390-420 | one turn of the loading loop: program, space and slot, or the reason it stops |
| `Pair.LoadPair` | kernel/main.c:384-438 | both programs of a pair on one memory, the second on what the first left; on failure slots already filled stay and nothing is put in play; on success the first is entered |
| `Pair.PairKeepsInv` | kernel/main.c:390-420 | two loads keep every other space as built and add both new ones |
| `Pair.PairStarts` | kernel/main.c:384-438 | the machine the pair is entered with meets every hypothesis of the run theorems: tables, windows apart, both in ring 3 at their entry points, with selectors, flags and stack tops 0x19400000 and 0x19900000 as numbers |
| `Pair.PairRuns` | kernel/main.c:384-463 | from the file system on: under any tick timing each program of the pair runs as it does alone, and the survivor of the first end resumes its own run |
| `Keyboard.PushAppends` | kernel/ps2kbd.h:57-62 | a push appends to the queue, or drops when 63 are waiting |
| `Keyboard.AdvanceRemoves` | kernel/ps2kbd.h:64-69 | a pop removes the oldest character |
| `Keyboard.RunKeepsInv` | kernel/ps2kbd.h:57-69 | with interrupts between any two reader steps, accepted characters are the delivered ones followed by the queue |
| `Keyboard.AcceptedIsDeliveredPlusQueued` | kernel/ps2kbd.h:57-69 | the same from boot on, with at most 63 queued |
| `Keyboard.DroppedIffFull` | kernel/ps2kbd.h:57-62 | an interrupt's character is lost iff 63 are queued |
| `Keyboard.Driver.Push` | kernel/ps2kbd.h:57-62 | the ring update in place |
| `Keyboard.Driver.IrqHandler` | kernel/ps2kbd.h:159-178 | shift tracking, mapping and push of one scan code |
| `Keyboard.TopRow` | kernel/ps2kbd.h:73-121 | scan codes 0x10 to 0x19 give the small letters of the top row, 32 less with shift |
| `Keyboard.HomeRow` | kernel/ps2kbd.h:73-121 | likewise 0x1E to 0x26 |
| `Keyboard.BottomRow` | kernel/ps2kbd.h:73-121 | likewise 0x2C to 0x32 |
| `Keyboard.DigitRow` | kernel/ps2kbd.h:73-121 | the digits and the signs above them |
| `Keyboard.SignKeys` | kernel/ps2kbd.h:73-121 | the signs right of the upper letter rows, without and with shift |
| `Keyboard.LowerSignKeys` | kernel/ps2kbd.h:73-121 | the signs of the lower letter row, without and with shift |
| `Keyboard.PlainKeys` | kernel/ps2kbd.h:73-121 | escape, backspace, tab, enter, space and the numeric pad, the same with shift |
| `Keyboard.SilentKeys` | kernel/ps2kbd.h:165-176 | the codes that stand for no character, every release among them |
| `Keyboard.ShiftHeld` | kernel/ps2kbd.h:165-166 | shift is held from 0x2A or 0x36 to 0xAA or 0xB6, and no other code changes it |
| `Keyboard.CapitalThenSmall` | kernel/ps2kbd.h:159-178 | shift, a letter, release, the letter again: its capital and its small letter are queued |
| `Keyboard.Driver.Pop` | kernel/ps2kbd.h:64-69 | a pop interrupted after its check and after its load still delivers the oldest character |
| `Keyboard.LineFits` | kernel/ps2kbd.h:271-274 | a line is printable and shorter than maxlen |
| `Keyboard.BackspaceUndoes` | kernel/ps2kbd.h:264-270 | a backspace undoes the character before it |
| `Keyboard.PlainText` | kernel/ps2kbd.h:271-274 | printable text is taken as it is, up to maxlen - 1 |
| `Keyboard.EditLine` | kernel/ps2kbd.h:264-274 | one character's effect on the line buffer, in place, and its echo |
| `Keyboard.EchoShowsLine` | kernel/ps2kbd.h:255-277 | on a terminal the echo leaves exactly the edited line, with blanks behind it |
| `Keyboard.ReadLine` | kernel/ps2kbd.h:255-277 | the returned line is the edited text of the characters delivered up to Enter, terminated and shorter than maxlen; what is echoed |

## Left out

- Device input and output (serial, VGA, framebuffer, PIC, PIT, ATA, CPUID, timing), the panic screen and the setup wizard: no logic to state beyond their ports. The kernel's own messages on the serial port are not recorded.
- TLB, accessed and dirty bits, segment and task-state tables, and vector registers: the register frame saves general registers only, so transparency is for programs using those.
- Instruction fetch and reads outside the task's pages are part of the arbitrary instruction set, which sees only the memory ring 3 can read.
- Preempt.TransparentPreemption: write calls whose buffer leaves the task's own pages are excluded by hypothesis, because the kernel reads the buffer with its own rights; tick, preemption and slice counters do not wrap.
- Preempt.SurvivorResumes: stops at the first end; afterwards the number of tasks stays 2, so the ended slot would be rotated back in, and nothing is claimed about that.
- Frames.Core.Leave: the alignment of the stack around the C call is not modelled; the saved frame pointer restores it.
- Vmm.Allocator.CreateUserAsAt: addresses are physical and virtual at once, as the kernel's identity map makes them.
- Simd.MatMul: the index arithmetic i * N + j is not bounded to 32 bits; vector intrinsics are modelled by their documented lane semantics.
- Simd.NoSignedOverflow: beyond 131071 elements the scalar code's signed overflow is undefined in C; the model wraps.
- Gguf.Reader.ReadGguf: Python's recursion limit on nested arrays is not modelled.
- Stf.SameName: says nothing about a name so long that the C loop itself would leave the buffer.
- The SafeTensors reader: it depends on a JSON library. Dequantisation and the synthetic model generator: easy members.
- Elf.LoadIn: stores beyond the modelled 4 GiB have no effect and loads there give zero, where the machine would fault.
- Elf.KeepsOutsideIff: the converse is for images that are read inside themselves and not overwritten while they load; for others the accepted headers depend on the memory around the image, and only the sufficient condition Elf.LoadKeepsOutside is stated.
- Launch.LoadTask: files of which an accepted header covers the boot page tables are outside the contract: the loader runs on those tables. The archive is a byte sequence of its own and cannot be overwritten by a load.
- Pair.LoadPair: the progress messages, and the rounds of the waiting loop after the first end.
- Vfs.FileSystem.Init: the prefix field of the header is ignored, as in the code.
- Launch.RunCommand: the usage message and progress output; entering ring 3 and waiting for the end are in the scheduling part.
- Keyboard.ReadLine: the halt while waiting and the acknowledgement to the interrupt controller; the wait is given as a finite list of attempts. The register saving of the keyboard stub is not modelled.
- ACPI tables, the cooperative scheduler, domain allocation, half-precision conversion and the game: simple walks or easy members.
