# Tortoise, verified

A Dafny model of the parts of Tortoise that are hardest to get right, and proofs about them: the C
compiler's code generator down to the processor it targets, the kernel's copy-on-write memory, the
processor's caches and exceptions, the file-system image builder, the assembler and linker, the 9P
codec and server, and the two allocators. `dafny verify dfyconfig.toml` checks everything.

Each part has a specification layer of functions on values, the lemmas about it, and, where the
source works by updating state, a class or method with the source's loops proved against that
layer. The main results, by part:

- **Compiler** (`CLang`, `CodeGen`, `Machine`, `Values`, `Frames`, `CompileExpr`, `Statements`,
  `CompileStmt`, `Labels`, `Functions`, `Divergence`, `Emitter`). For every well-typed tree of integer
  expressions and structured statements, switch included, the emitted code, run instruction by
  instruction with the processor's flags and push/pop stack, computes the C value, changes exactly
  the right locals, keeps the stack balanced and every other byte; a whole function returns to its
  caller with everything outside its frame intact. A call returns exactly when the body ends, traps
  exactly when it divides by zero or overflows, and runs for ever exactly when the body never ends.
  The one shortcut of the code generator that changes a value, dropping a cast on a constant right
  operand, is shown by an example and characterised exactly.
- **Copy-on-write memory** (`UserMemory`, `MemoryInvariant`, `MemorySteps`, `MemoryRegions`,
  `MemoryRuns`, `MemoryShared`, `MemoryOrphans`, `MemoryPlaces`, `KernelMemory`). Over every
  interleaving of faults, stores, forks, mappings, unmappings and exits, on all out-of-memory paths:
  counts equal page-table entries, a private writable page has one entry, processes cannot write each
  other's private bytes, and what they read is what they would read if fork copied every private page
  at once and passed on the shared ones. Unmapping inside a region while
  the kernel heap is empty can lose the upper half of the region; exactly when that happens, and what
  it does to the next fork, is proved. So is exactly when the search for an open place of a
  mapping finds the highest free one: when its unsigned arithmetic never goes below zero.
- **Processor** (`Tlb`, `DecodeCache`, `BusWrites`, `Exceptions`, `Paging`, `Timer`). The translation
  cache and the decoded-instruction cache are invisible over whole runs, the latter because every
  writer of RAM reports what it wrote; exception delivery ends after at most two entries; IRET undoes
  an entry, with paging on too; the timer does not depend on when it is read, and its next deadline is
  right exactly when it is a 64-bit number.
- **Disk image** (`DiskImage`, `DiskFiles`, `DiskSpace`, `DiskBuilder`). Every used block has exactly
  one owner through triple indirection, so a write changes the bytes it names and no other byte of any
  file; it fits exactly when there are as many free blocks as slots missing on the way to its blocks.
- **Object pipeline** (`AsmEncode`, `TwoPass`, `StringLiterals`, `LibrarySelect`, `Linker`,
  `LinkAll`). Every instruction and datum takes the same room in both passes, labels do not move,
  string literals survive, library selection is the least fixed point, and the linker makes an image
  exactly when every name has one meaning; it holds every relocated value and every other byte.
- **9P** (`Wire`, `Messages9P`, `Fcalls`, `FcallBuffers`, `FidTable`, `DirReads`). The three switches
  for size, writing and reading agree for every message type; what is sent is found in the buffer the
  reader leaves; what was read is written again as the same bytes exactly when no string held a NUL; the
  fid table loses no handle; a client that reads a directory until a reply is empty has all of it exactly
  when each record fits the count.
- **Allocators** (`FreeList`, `Heap`, `Malloc`, `KernelHeap`). The C library's heap on its linked
  list in memory, and the kernel's slabs, chained through their objects, and page runs, beside the low
  pages that other code takes and gives back; nothing is lost. Up to a request of 0xFFFFF000 bytes, and no
  further, `kmalloc` gives an object that is large enough.

`Words` and `Bitmaps` hold shared arithmetic, `Wrappers` the option type. Arithmetic is on unbounded integers; 32-bit words,
16-bit reference counts, 32-bit generations and 8-bit bytes wrap explicitly.

## Model

| member | source | states |
|---|---|---|
| CLang.EvalTyped | cc/parse.c:298-385 | Evaluating a well-formed expression in a typed environment gives a value of the expression's C type and keeps every local in the range of its type. |
| Values.ApplyRepr | src/cpu.c:561-629 | The instruction chosen for a binary operator turns the operands' bit patterns into the pattern of the C result, signed or unsigned, and traps exactly when C division by zero or overflow occurs. |
| Values.CompareRepr | cc/gen.c:134-153 | After a 32-bit compare the branch chosen for a relation and a polarity is taken exactly when the C comparison, signed or unsigned, has that truth. |
| Values.R1Exact | cc/gen.c:106-117 | A constant under a cast, loaded without the cast, has the right value if and only if the constant already fits the cast type. |
| Machine.ReadBack | src/cpu.c:135-175 | Storing n bytes little-endian and reading them back gives the value modulo 2^(8n). |
| CompileExpr.ExprOk | cc/gen.c:287-427 | For every well-formed expression: running its code leaves the left-to-right C value in R0, the environment in the locals, the stack pointer and R3 to R7 unchanged, every byte above the stack pointer outside the locals alone, and every byte below the scratch stack alone; or traps, exactly when evaluation divides by zero or overflows. |
| CompileExpr.BranchOk | cc/gen.c:168-205 | The branch code of an expression goes to its label exactly when the expression's truth equals the requested one, and otherwise falls through, with the same effect on locals and stack. |
| CompileExpr.OperandsOk | cc/gen.c:155-166 | Both operands are evaluated left to right, the left in R0 and the right in R1, through the stack or directly. |
| CompileExpr.IncDecOk | cc/gen.c:271-285 | Pre and post increment and decrement store the wrapped new value and yield the new or the old one. |
| CompileExpr.TernaryOk | cc/gen.c:287-427 | A conditional evaluates one arm only and converts it to the common type. |
| CompileExpr.OpAssignOk | cc/gen.c:287-427 | A compound assignment reads, computes in the common type, converts and stores through the saved address. |
| Statements.ExecMore | cc/gen.c:441-530 | The bound on loop iterations in the meaning of statements does not matter: an execution that ends within a bound ends the same way within every larger one. |
| CompileStmt.RunStmt | cc/gen.c:441-530 | For every structured statement and every bound within which its execution ends: its code reaches its end, the label a break, continue or goto names, or the return label with the value in R0, with the locals the C meaning gives and no other byte outside the scratch stack changed, or traps exactly when the meaning does. |
| CompileStmt.RunFrom | cc/gen.c:501-508 | A switch body entered at one of its case labels does what the rest of the sequence means, falling through. |
| CompileStmt.SwitchJump | cc/gen.c:429-436 | The comparisons and the jump behind them take the machine to the case with the value's bits, else to the default, else to the end. |
| Labels.ExprLabels | cc/gen.c:287-427 | The labels of an expression's code are distinct and are exactly numbers taken from the counter's stretch. |
| Labels.StmtLabels | cc/gen.c:441-530 | The labels of a statement's code are distinct: the loops' own and fresh ones. |
| Functions.FuncLabels | cc/gen.c:532-547 | No label of a compiled function is defined twice. |
| Functions.CallOk | cc/gen.c:532-547 | Calling a compiled function whose body ends returns to the return address with R3 to R7 as on entry, the return address popped, every byte outside the parameters and the function's own frame and scratch stack unchanged, and the return value in R0 (0 when main falls off its end); or traps when the body does. |
| Divergence.TimeoutRuns | cc/gen.c:441-530 | When a statement reaches a bound on its iterations, its code makes at least that many steps and is still running. |
| Divergence.GoesInside | cc/parse.c:1656-1710 | A statement whose breaks, continues and case labels are scoped as the parser scopes them never goes anywhere else. |
| Divergence.CallMeans | cc/gen.c:532-547 | A call traps if and only if the body does, returns if and only if the body ends otherwise, and runs for ever if and only if the body ends within no bound. |
| Functions.CastDropExact | cc/gen.c:106-117 | For a sum or difference with a cast constant on the right, the code computes the C value if and only if the constant fits the cast type modulo 2^32. |
| Functions.LossyCast | cc/gen.c:106-117 | The sum 0 + (char)300 is 44 in C; its code leaves 300 in R0. |
| Emitter.Generator.EmitExpr | cc/gen.c:287-427 | The recursive emitter appends exactly the specified code and advances the label counter by the specified number. |
| Emitter.Generator.EmitBranch | cc/gen.c:168-205 | The same for branches, with and without the skip label. |
| Emitter.Generator.EmitStmt | cc/gen.c:441-530 | The same for statements. |
| Emitter.Generator.EmitSwitch | cc/gen.c:429-439 | The walk along the case list appends exactly the specified comparisons, and the rest of the switch follows. |
| Emitter.Generator.EmitFunc | cc/gen.c:532-547 | The same for whole functions. |
| MemoryInvariant.PickExact | os/kernel/mm.c:63-76 | The cyclic search for a frame fails if and only if every frame is in use. |
| MemoryInvariant.RefsSmall | os/kernel/mm.c:102-112 | A frame's count never exceeds the number of process slots, so the 16-bit count never wraps. |
| MemorySteps.NewPageOk | os/kernel/mm.c:198-213 | Mapping a fresh zero page keeps the invariant and no process sees a difference; it fails exactly when frames or page tables run out, and then undoes itself. |
| MemorySteps.FaultOk | os/kernel/mm.c:291-323 | A demand or write fault keeps the invariant and changes what no process reads; it succeeds if and only if the access is permitted and the memory it needs is there; after success the access does not fault again; after failure tables and counts are as before. |
| MemorySteps.FreePagesOk | os/kernel/mm.c:215-225 | Freeing a range removes exactly its entries, keeps the invariant and touches no page contents. |
| MemorySteps.ExitOk | os/kernel/mm.c:227-238 | Freeing an address space removes exactly its entries, returns its page tables and directory, and keeps the invariant. |
| MemorySteps.ForkOk | os/kernel/mm.c:325-347 | After fork the child has the parent's regions and reads the parent's bytes everywhere; no other process sees a difference; a fork that fails, at any page, gives every table and reference back. |
| MemoryRegions.AllocPagesOk | os/kernel/mm.c:198-213 | Filling a range keeps the invariant and all views, on its out-of-memory exits too. |
| MemoryRegions.UnmapExact | os/kernel/mm.c:349-378 | Unmapping keeps the invariant if and only if no present page belongs to the upper half of a region whose split got no memory. |
| MemoryRegions.UnmapOk | os/kernel/mm.c:349-378 | Then no page of the range is left, every page outside keeps its bytes, a region keeps its rights outside the range except for pages, none present, of an upper half whose split failed, nobody gains rights, and low memory is conserved. |
| MemoryRegions.MmapOk | os/kernel/mm.c:380-413 | A mapping at a given place gives a zero-filled region with its rights, or, on each of its three failures, no region and no page in the range; everything outside keeps its bytes. |
| MemoryRuns.StoreOk | os/kernel/trap.c:195 | A store succeeds if and only if permitted and memory suffices; it changes its one byte for the process and the sharers of a shared page and nothing that anyone else reads. |
| MemoryRuns.RunInv | os/kernel/mm.c:63-378 | Every run of faults, stores, forks, exits, mappings, unmappings that orphan no page, and kernel frame use ends in the invariant: counts equal entries plus kernel holds, bits and the free count agree, a private page is writable only through its one entry. |
| MemoryRuns.RunIsolated | os/kernel/mm.c:291-378 | Whatever the other processes do, a process's regions and private bytes stay as it left them. |
| MemoryRuns.RunRefinesPlain | os/kernel/mm.c:291-378 | Every run over private memory reads as a machine that knows no frames and copies every page at fork. |
| MemoryShared.StoreMirrors | os/kernel/trap.c:195 | A store to a shared page changes the byte for exactly the processes that have that page, and a store to a private page for its process only. |
| MemoryShared.ForkMirrors | os/kernel/mm.c:325-347 | After fork the child's shared pages are the parent's and its private pages are copies. |
| MemoryShared.MmapMirrors | os/kernel/mm.c:380-413 | A new shared mapping is made of pages that are nobody else's; a private or failed one shares nothing. |
| MemoryShared.RunRefinesCopying | os/kernel/mm.c:291-413 | Every run, shared mappings included, reads as a machine without frames in which fork copies every private page at once and passes on the shared ones; shared pages are always present. |
| MemoryShared.PrivateMirrors | os/kernel/mm.c:133-146 | Every state without shared mappings, the first one included, has such a machine to start from. |
| MemoryOrphans.OrphanLeaks | os/kernel/mm.c:325-347 | A writable page without a region is shared writable by fork: a store by the child changes the parent's byte. |
| MemoryOrphans.SplitFailureLeaks | os/kernel/mm.c:363-372 | A concrete address space in which a failed split breaks the invariant and, after a fork, a store by the child changes the parent's byte. |
| MemoryPlaces.PlaceExact | os/kernel/mm.c:390-403 | For any region list, the search for an open place finds the highest free place between the break and MMAP_TOP, and fails only if there is none, if and only if no step of it subtracts the length from a smaller address. |
| MemoryPlaces.WrapsWhenFull | os/kernel/mm.c:390-403 | The search goes below zero only when no free place is left. |
| MemoryPlaces.HighRegions | os/kernel/mm.c:390-403 | It does not when every region that reaches above the break starts no lower than the length. |
| MemoryPlaces.LowRegion | os/kernel/mm.c:390-403 | It does when the first region in the list that is in the way of the top place starts below the length. |
| MemoryPlaces.OrderMatters | os/kernel/mm.c:390-403 | Two regions listed in one order make it go below zero and in the other do not, so it is no matter of which regions there are. |
| MemoryPlaces.SmallRequests | os/kernel/mm.c:390-403 | So requests up to four megabytes always get the highest free place, or none if there is none. |
| MemoryPlaces.SecondLongest | os/kernel/mm.c:390-403 | After one mapping of the greatest length a second one, for which there is no room, is placed at 0xE0000000. |
| MemoryPlaces.AnywhereOk | os/kernel/mm.c:390-413 | A place found without going below zero is free, so nothing need be unmapped there, and the mapping has all the effects of one at a given place. |
| MemoryPlaces.FindPlace | os/kernel/mm.c:390-403 | The nested loops, restarting from the list's head after every move, compute the search, with 32-bit sums. |
| KernelMemory.Memory.constructor | os/kernel/mm.c:133-146 | All frames free, no address spaces: the invariant holds. |
| KernelMemory.Memory.FrameAlloc | os/kernel/mm.c:63-76 | The bitmap loop returns the first clear bit cyclically from the hint and marks it. |
| KernelMemory.Memory.FrameFree | os/kernel/mm.c:102-108 | The count drops, and at zero the bit clears and the free count rises. |
| KernelMemory.Memory.MapAt | os/kernel/mm.c:182-187 | The entry is set, with a new page table when needed, or nothing changes. |
| KernelMemory.Memory.AllocUser | os/kernel/mm.c:198-213 | The loop fills the range page by page and gives up at the first failure, as specified. |
| KernelMemory.Memory.FreeUser | os/kernel/mm.c:215-225 | The loop frees exactly the present pages of the range, as specified. |
| KernelMemory.Memory.LookUp | os/kernel/mm.c:241-246 | The list walk finds the first region containing the page. |
| KernelMemory.Memory.Fault | os/kernel/mm.c:291-323 | The specified fault; the invariant holds, no view changes, a permitted write is writable after. |
| KernelMemory.Memory.ForkSpace | os/kernel/mm.c:325-347 | The nested loops over directory and tables are the specified fork of every user page. |
| KernelMemory.Memory.FreeSpace | os/kernel/mm.c:227-238 | The nested loops free every frame and table. |
| KernelMemory.Memory.ForkProcess | os/kernel/proc.c:242-255 | The new address space, with the child's view equal to the parent's, or everything undone. |
| KernelMemory.Memory.UnmapRange | os/kernel/mm.c:349-378 | The pages of the range go, then the regions are cut as specified. |
| KernelMemory.CutList | os/kernel/mm.c:352-377 | The walk along the region list keeps, trims, splits or drops each region as specified. |
| KernelMemory.InsertList | os/kernel/mm.c:248-260 | The new region goes before the first that does not start lower. |
| KernelMemory.Memory.MapRegion | os/kernel/mm.c:380-413 | The specified mapping, with all three failures. |
| KernelMemory.Memory.MapAnywhere | os/kernel/mm.c:389-413 | The mapping at the highest free place; on failure no process reads anything else than before, and a private mapping whose region got memory fails only when no place is free. |
| KernelMemory.Memory.StoreByte | os/kernel/trap.c:195 | The specified store, with its effect on every view. |
| Tlb.EncodeDecode | include/cpu.h:75-80 | Every table word is its decoded form: frame number, six flag bits, six other bits. |
| Tlb.TranslateOk | src/cpu.c:234-257 | With a coherent cache a translation gives the same address or fault code, and leaves the same memory, accessed and dirty bits included, as walking the tables; the cache stays coherent, even when a table maps itself or is shared. |
| Tlb.FlushForgets | src/cpu.c:193-200 | After a flush, wrap-around of the 32-bit generation included, no cached entry is current. |
| Tlb.RunMatches | src/cpu.c:193-257 | Over every run of translations, table stores, page invalidations, flushes and base changes in which a page whose table words changed is invalidated before its next use, all outcomes and memory equal those of the walk. |
| Tlb.FlushedRun | src/cpu.c:686-691 | The same from any state right after a flush. |
| Tlb.StaleEntry | src/cpu.c:234-257 | Without the invalidation a changed entry is not seen. |
| Tlb.Unit.PgTranslate | src/cpu.c:234-257 | The in-place translation is the specified one and equals the walk. |
| Tlb.Unit.FlushTlb | src/cpu.c:193-200 | The generation counter steps, and on its wrap-around every entry is cleared: afterwards the cache is the specified flushed one. |
| Exceptions.BrokenKeeps | src/cpu.c:90-106 | An entry that traps changes no register but the fault address. |
| Exceptions.FaultEnds | src/cpu.c:118-133 | For any memory system: a fault ends with depth 0 after at most two entries, in the vector's handler or the double-fault handler, in supervisor mode with interrupts off and a frame, stored from the memory of the fault or from what the broken first entry left, holding the interrupted program's return address, flags and stack pointer; or halted with status 3 and no register changed but the program counter, back at the instruction, and the fault address. |
| Exceptions.DeliverEnds | src/cpu.c:108-116 | The same for interrupts and system calls, with the given return address, and the faulting instruction's in a double fault. |
| Exceptions.IretUndoes | src/cpu.c:675-684 | When the frame's words behave as plain RAM in every memory that satisfies a condition the handler keeps, and the handler leaves them and its stack pointer alone, an IRET that can read them restores program counter, condition bits, mode, interrupt enable and stack pointer and changes no other register. |
| Exceptions.FlatRoundTrip | src/cpu.c:90-106 | With paging off and the frame in RAM, entry succeeds, and entry then IRET gives every register back but the cause, with the saved program counter. |
| Paging.TranslateIsWalk | src/cpu.c:234-257 | Translation on the bytes of RAM has the outcome of the table walk and leaves bytes that decode to the words the walk leaves. |
| Paging.PagedPlain | src/cpu.c:278-315 | With paging on, and words that cross pages included, words whose bytes are mapped apart from all tables are plain RAM in every memory in which the tables map them there. |
| Paging.PagedReturn | src/cpu.c:675-684 | With paging on, after any handler that keeps the frame mapped and its bytes, IRET succeeds and restores the interrupted program. |
| Paging.PagedRoundTrip | src/cpu.c:90-106 | With paging on, a frame mapped writable apart from the tables and a readable vector: entry and IRET both succeed and give every register back but the cause, with the saved program counter. |
| Paging.SmallSettled | src/cpu.c:234-257 | A three-page memory with its tables in it in which a frame is mapped so. |
| Exceptions.Core.EnterVector | src/cpu.c:90-106 | Pushing the frame and loading the vector on the registers in place gives the entered or the broken state of the specified entry, memory included. |
| Exceptions.Core.TakeFault | src/cpu.c:118-133 | The recursive in-place fault ends with depth 0, in a handler or halted. |
| Exceptions.Core.DeliverVector | src/cpu.c:108-116 | The delivery on the registers in place ends in the specified state. |
| DecodeCache.DropOk | src/cpu.c:419-430 | Dropping the pages of every reported write keeps each cached entry equal to RAM. |
| DecodeCache.StepSame | src/cpu.c:1461-1508 | One step with the cache gives the same machine as one without, and leaves every entry equal to the bytes at its physical place, for any machine that reports its writes. |
| DecodeCache.RunSame | src/cpu.c:1461-1508 | The same for any number of steps, for any instruction set, devices and slow fetches that report their writes. |
| BusWrites.ActReported | src/cpu.c:155-171 | Every byte a store, a disk transfer, a received frame or a sector read through the old port changes lies in a range it reports. |
| BusWrites.DiskReported | src/dev.c:310-330 | The same for the sector loop, also when it ends in an error. |
| BusWrites.SkipSame | src/cpu.c:155-158 | Not reporting a store when neither its first nor its last page has cached entries is the same as reporting it. |
| BusWrites.BuiltFaithful | src/cpu.c:155-171 | A machine whose only way to RAM is through these writers reports all it writes. |
| BusWrites.BuiltRunSame | src/cpu.c:1461-1508 | For every such machine, runs with the cache and without it are the same, with no assumption about what is reported. |
| BusWrites.Bus.MemWritten | src/cpu.c:419-430 | The page loop drops exactly the tables of the pages touched. |
| BusWrites.Bus.PhysWrite | src/cpu.c:155-171 | The store in place with its conditional drop: RAM and cache are as specified, and it fails exactly outside RAM. |
| BusWrites.Bus.DiskComplete | src/dev.c:310-330 | The transfer loop in place: an error leaves the sectors read before it and the part of a sector that came before the error, and every sector tried is dropped from the cache. |
| BusWrites.Bus.TryDeliver | src/net.c:153-166 | A frame is copied and reported exactly when the device is on, the last one was taken, and its buffer lies in RAM. |
| BusWrites.Bus.LegacyRead | src/dev.c:591-611 | A sector read through the old port is copied and reported, or nothing changes. |
| BusWrites.Bus.Perform | src/cpu.c:155-171 | A sequence of writes in place, each with its own call, leaves RAM and the cache as the sequence's reports say. |
| DecodeCache.Stepper.FetchInstruction | src/cpu.c:399-405 | The byte loop decodes as specified and drops what it overwrote. |
| DecodeCache.Stepper.StepOne | src/cpu.c:1461-1508 | The step on state in place, fetching through the cache, is the uncached step, and the cache stays exact. |
| Timer.SyncAnywhere | src/dev.c:84-96 | Synchronising at any increasing 64-bit instruction counts leaves count, fraction, phase and pending line as one sync at the last; no 64-bit sum wraps. |
| Timer.NextExact | src/dev.c:98-101 | Right after a sync the computed deadline is the least later count at which a sync raises the line if and only if last + (period - phase) * prescale - frac is below 2^64. |
| Timer.LongWait | src/dev.c:98-101 | With period and prescale 0xFFFFFFFF after 2^33 instructions the deadline comes out as 1. |
| Timer.Device.TimerSync | src/dev.c:84-96 | The sync on the device's fields, in 64-bit sums, ends in the specified state and keeps the timer's bounds. |
| Timer.Device.TimerWrite | src/dev.c:112-124 | A register write synchronises, then sets the register: period and control start the phase anew, a prescale of zero is one; the bounds are kept. |
| DiskImage.PosApart | tools/tdisk.c:166-189 | Different block numbers of files have different slots, through triple indirection. |
| DiskFiles.LinkOk | tools/tdisk.c:148-164 | Putting a fresh block in an empty slot keeps ownership exclusive and complete, moves no other block and changes no byte of any file. |
| DiskFiles.DescendOk | tools/tdisk.c:166-189 | Mapping with allocation reaches a block and changes no byte of any file. |
| DiskFiles.PutByte | tools/tdisk.c:191-207 | Writing a data block changes the bytes of that block of that file only. |
| DiskFiles.IwriteOk | tools/tdisk.c:191-207 | When a write has a result, the file holds the data at the offset, its size covers it, every other byte and attribute of every file is unchanged, every used block at or above dstart is marked and has one owner, and the free count is the number of clear bits. |
| DiskSpace.DescendCount | tools/tdisk.c:166-189 | Mapping a block with allocation succeeds exactly when there are as many free blocks as empty slots on its way, and then takes exactly those. |
| DiskSpace.IwriteExact | tools/tdisk.c:191-207 | A write has a result if and only if every block of it has an address and the empty slots on the way to its blocks, each counted once, are no more than the free blocks. |
| DiskFiles.ReadAfterWrite | tools/tdisk.c:191-226 | Reading back gives the data; reading anywhere else gives what it gave before. |
| DiskBuilder.Image.constructor | tools/tdisk.c:473-491 | A new image satisfies the invariant, every block from dstart on is free, and every file reads as zeros. |
| DiskBuilder.Image.Balloc | tools/tdisk.c:125-146 | The bitmap scan takes the first clear block, cleared and counted. |
| DiskBuilder.Image.Step | tools/tdisk.c:148-164 | One level of an indirect lookup on the blocks in place finds the block, or allocates it if it is missing, or fails when the disk is full. |
| DiskBuilder.Image.Bmap | tools/tdisk.c:166-189 | The descent through up to three levels is the specified one. |
| DiskBuilder.Image.WriteAt | tools/tdisk.c:191-207 | The chunked write loop; the bytes written read back. |
| DiskBuilder.Image.ReadAt | tools/tdisk.c:209-226 | The chunked read loop returns the file's bytes, holes as zeros, and fails exactly when a block has no address. |
| LibrarySelect.LibClashes | tools/tlink.c:198-211 | The count is zero if and only if no symbol of a library object is defined twice. |
| LibrarySelect.SelectLib | tools/tlink.c:213-238 | Without clashes the loop ends with the least set that contains the command-line objects and every object defining a symbol a kept object's relocation uses. |
| LibrarySelect.OrderFree | tools/tlink.c:213-238 | Reordering the files selects the same objects. |
| Linker.LayoutOk | tools/tlink.c:279-301 | All sections of all objects are 4-aligned and pairwise disjoint. |
| Linker.ReadExact | tools/tlink.c:170-181 | An object that passes the reader's checks, whose sum of offset and width is 32-bit, has every field in its section if and only if no such sum passes 2^32. |
| Linker.FarOffset | tools/tlink.c:177 | A relocation at offset 0xFFFFFFFE of a section of four bytes passes the checks. |
| Linker.CheckObj | tools/tlink.c:170-181 | The two checking loops accept exactly such objects. |
| Linker.GlobalIs | tools/tlink.c:302-344 | When resolution reports no error a global name means the address of its one definition. |
| LinkAll.Collect | tools/tlink.c:302-321 | The loop over all definitions reports no duplicate exactly when every name is defined once, and the table holds the definitions. |
| LinkAll.SpecialsOk | tools/tlink.c:322-324 | The linker's own symbols clash with no definition exactly when no object defines them, and then the table gives every name its meaning. |
| LinkAll.CountUndefined | tools/tlink.c:325-344 | No error is counted exactly when every symbol a relocation uses has a meaning. |
| LinkAll.Resolve | tools/tlink.c:302-345 | The resolution loops report no error if and only if every name is resolved. |
| LinkAll.CopySections | tools/tlink.c:346-353 | The copying loop fills the image with every section at its place and zeros between. |
| LinkAll.Compact | tools/tlink.c:235-237 | The kept objects, moved to the front, are the chosen ones in order. |
| LinkAll.Link | tools/tlink.c:277-375 | The whole linker: an image if and only if no library symbol clashes, every name used in the least set of needed objects is resolved, and every 16-bit field takes its value; it is that set's image. |
| Linker.FieldOk | tools/tlink.c:354-374 | When an object's relocations do not overlap, every relocated field of the image holds S+A or S+A-(P+4), or its low 16 bits. |
| Linker.ByteOk | tools/tlink.c:348-353 | Every byte of a section that no relocation covers is its object's byte. |
| Linker.GapOk | tools/tlink.c:346-353 | Bytes of no section are zero. |
| Linker.DirectIsRelative | assembler/assembler.c:917-934 | Wherever the sections are placed, the field of a REL32 relocation against its own section's symbol holds the displacement the assembler writes itself for a target in that section. |
| Linker.PlaceSection | tools/tlink.c:279-284 | The loop gives each object the next 4-aligned place of the section and returns where the section ends. |
| Linker.WriteField | tools/tlink.c:82-87 | The byte loop stores the value little-endian and changes no other byte. |
| Linker.Relocate | tools/tlink.c:354-374 | The nested loops patch the image in place to the specified one, and count no error exactly when every 16-bit field takes its value. |
| TwoPass.NeverMoved | assembler/assembler.c:1148-1167 | When every .space and .align operand uses names settled earlier, pass 2 finds no label moved and, if it ends, ends with pass 1's section sizes; instructions and data may use any names. |
| AsmEncode.FillSize | assembler/assembler.c:894-934 | Whatever the pass and the value, a field takes the room of its kind, and its relocation lies in it. |
| AsmEncode.CodeAlike | assembler/assembler.c:954-1139 | Operands that differ only in the values of their expressions are accepted alike and get the same opcode bytes and width. |
| TwoPass.EmitSame | assembler/assembler.c:954-1139 | An instruction or datum both passes accept takes the same room in both, whatever its operands are worth in each. |
| TwoPass.PassesAgree | assembler/assembler.c:1292-1310 | Under that condition pass 2, from the symbols pass 1 leaves, never reports a moved label, and if it ends it ends with the same section sizes. |
| TwoPass.ObjectOk | assembler/assembler.c:1292-1310 | An assembled file's sections are as long as both passes counted, and its relocations lie in them without overlapping, as the linker needs. |
| TwoPass.WriteItems | assembler/assembler.c:1195-1206 | The loop over a data directive's elements evaluates each after those before it are written. |
| TwoPass.EvalSame | assembler/assembler.c:556-767 | An expression over settled names that pass 2 accepts has the same value and relocation in both passes. |
| TwoPass.ForwardSizeMoves | assembler/assembler.c:1233-1245 | A program whose .space size is the difference of two later labels: pass 1 accepts it and pass 2 reports a moved label. |
| TwoPass.RunPass | assembler/assembler.c:1292-1310 | The statement loop ends as the specified pass. |
| TwoPass.Assemble | assembler/assembler.c:1292-1310 | Pass 2 runs on the symbols pass 1 left; under the condition it reports no moved label, and if it ends the sections it wrote are as long as pass 1 counted. |
| StringLiterals.StringRound | cc/gen.c:549-570 | For every byte string the emitted lines survive comment stripping and escape parsing and assemble to the string and a zero. |
| StringLiterals.EscapeRound | assembler/assembler.c:520-554 | One escape reads back as its byte whatever text follows it. |
| StringLiterals.StripRound | assembler/assembler.c:250-264 | Nothing inside an escaped literal looks like its end or a comment. |
| StringLiterals.EmitString | cc/gen.c:549-570 | The emitting loops write the specified lines, which assemble to the string and a zero. |
| Wire.PureOfEncode | lib/9pconv.c:15-54 | Encoded fields read back, whatever surrounds them. |
| Wire.EncodeOfPure | lib/9pconv.c:48-79 | Decoded fields encode to the bytes they came from. |
| Wire.PlaceAll | lib/9pconv.c:56-65 | Decoding in place gives every field the pure decoder gives, and no string already decoded is overwritten. |
| Messages9P.EncodeSize | lib/9pconv.c:141-195 | The encoding of a message, as its list of fields, has the size of its fields. |
| Messages9P.RoundTrip | lib/9pconv.c:197-293 | Every in-range message decodes to itself, whatever follows it in the buffer. |
| Messages9P.Reencode | lib/9pconv.c:295-437 | Encoding what decoding a message left in the structure and the buffer gives the same bytes if and only if no string of the message holds a NUL. |
| Messages9P.InPlaceOk | lib/9pconv.c:295-437 | The in-place decoder accepts the same buffers, and in the buffer it leaves every number and raw slice is the field and every C string is the field up to its first NUL. |
| Messages9P.SendReceive | lib/9pconv.c:197-437 | Encoding then decoding in place finds every field of the message, strings up to their first NUL. |
| Messages9P.StatRoundTrip | lib/9pconv.c:85-128 | Every in-range stat record, as its list of fields, comes back. |
| Messages9P.StatReencode | lib/9pconv.c:105-128 | Encoding what decoding a stat record left gives the same bytes if and only if the fields fill the record and no string holds a NUL. |
| Messages9P.StatInPlaceOk | lib/9pconv.c:105-128 | The in-place stat decoder accepts the same buffers with the same size, and in the buffer it leaves every number and C string is the field, up to its first NUL, none overwritten by a later one. |
| Messages9P.StatSendReceive | lib/9pconv.c:85-128 | Encoding a stat record then decoding it in place finds every field. |
| Fcalls.SizeExactS2M | lib/9pconv.c:141-195 | For every message type the writing switch writes exactly the bytes the size switch counts, and fails exactly when they do not fit. |
| Fcalls.ConvIsEncode | lib/9pconv.c:197-293 | What the writing switch writes is the encoding of the message's fields. |
| Fcalls.ConvIsDecode | lib/9pconv.c:295-437 | The reading switch, strings taken from an untouched buffer, accepts exactly what the fields of the type allow and finds those fields. |
| Fcalls.RoundTripS2M | lib/9pconv.c:197-437 | Every in-range message written by one switch is read back by the other. |
| Fcalls.SizeExactD2M | lib/9pconv.c:81-103 | The record writer writes exactly the bytes its size function counts, and fails exactly when they do not fit. |
| Fcalls.ConvIsDecodeStat | lib/9pconv.c:105-128 | The record reader accepts what the fields allow and finds them. |
| Fcalls.RoundTripD2M | lib/9pconv.c:81-128 | Every in-range stat record written is read back, with its size. |
| FcallBuffers.ReadCallIs | lib/9pconv.c:295-437 | The reading switch run in place, string by string, accepts what it accepts on an untouched buffer, and the caller finds in the buffer the message with its strings cut at their first NUL; none is overwritten by a later one. |
| FcallBuffers.SendCall | lib/9pconv.c:197-437 | A message written by one switch and read in place by the other is found as it was sent, for every type; a sender's strings, being C strings, hold no NUL. |
| FcallBuffers.RewriteM2S | lib/9pconv.c:295-437 | What was read in place is written again as the same bytes if and only if no string that came in held a NUL; otherwise fewer are written. |
| FcallBuffers.ErrorShrinks | lib/9pconv.c:34-39 | An error message of twelve bytes with a NUL in its text is read, and ten bytes are written again. |
| FcallBuffers.ReadStatIs | lib/9pconv.c:105-128 | The same as ReadCallIs for stat records. |
| FcallBuffers.SendStat | lib/9pconv.c:81-128 | A stat record written and read in place is found as it was sent, with its size. |
| FcallBuffers.RewriteM2D | lib/9pconv.c:81-128 | A stat record read in place is written again as the same bytes if and only if its fields fill it and no string held a NUL. |
| Messages9P.Gstr | lib/9pconv.c:56-65 | The move inside the buffer is the specified one. |
| FidTable.RunOk | lib/9p.c:139-225 | Over any messages and handler outcomes fid numbers in use are distinct, each has its own handle, the handles held are exactly those, and acquisitions minus releases equal the fids in use. |
| FidTable.PartialWalk | lib/9p.c:97-137 | A walk that stops partway leaves every fid and the handles held as they were. |
| FidTable.FullWalk | lib/9p.c:97-137 | A complete walk gives the new fid the file at the end under a fresh handle, which stays held; a fid walked onto itself has its old handle released; every other fid is left alone. |
| FidTable.Server.FindFid | lib/9p.c:36-41 | The scan returns the slot in use with that number, or the table's length when there is none. |
| FidTable.Server.FindSlot | lib/9p.c:43-55 | Returns a free slot, or the table's length when the number is in use or the table is full. |
| FidTable.Server.Reset | lib/9p.c:151-157 | The version loop drops every fid in use. |
| FidTable.Server.WalkTo | lib/9p.c:97-137 | The walk loop is the specified walk. |
| DirReads.EmptyExact | lib/9p.c:71-95 | A directory read returns nothing exactly at the end and where the next record does not fit the count. |
| DirReads.InOrder | lib/9p.c:71-95 | Whatever the counts, a client that goes on where the last reply ended gets the records whole, in order and once, from the first on. |
| DirReads.DirComplete | lib/9p.c:71-95 | With one count for all its reads, such a client comes to an empty reply, and has every record then if and only if each fits what the count leaves room for. |
| DirReads.WrapRestarts | lib/9p.c:71-77 | A reply that ends where the low word of the offset is zero makes the next read start over. |
| DirReads.ReadBack | lib/9p.c:80-90 | The bytes of a reply read back as its records. |
| DirReads.Reader.ReadDir | lib/9p.c:71-95 | The loop fills the reply with exactly the records that fit, in order, and moves the place past them; an offset other than zero and the last end is an error. |
| FreeList.CarveOrdered | lib/stdlib.c:27-39 | Taking or splitting a block keeps the free list ordered, disjoint and without adjacent blocks. |
| FreeList.ReleaseOrdered | lib/stdlib.c:49-65 | Inserting and merging a freed block keeps the list ordered, disjoint and without adjacent blocks. |
| FreeList.ReleaseSum | lib/stdlib.c:49-65 | Merging loses no byte. |
| Heap.FindFit | lib/stdlib.c:27-28 | The pointer walk finds the first block large enough and its predecessor. |
| Heap.TakeFit | lib/stdlib.c:27-41 | The header writes of malloc leave a list in memory that is the specified one and touch no cell outside the list's blocks. |
| Heap.PutBack | lib/stdlib.c:49-65 | The header writes of free leave the specified merged list and touch no cell of any other block. |
| Malloc.TakeSane | lib/stdlib.c:21-41 | malloc from the list keeps the heap's invariant and all live contents. |
| Malloc.GrowSane | lib/stdlib.c:42-46 | malloc from sbrk does too, and live plus free sizes are everything sbrk returned. |
| Malloc.PutSane | lib/stdlib.c:49-65 | free does too. |
| Malloc.Arena.Malloc | lib/stdlib.c:21-47 | Returns null exactly when the request is too large or neither the list nor sbrk can meet it; else a block with room for it, apart from all live ones, whose contents stay. |
| Malloc.Arena.Free | lib/stdlib.c:49-65 | The block joins the free list; other live contents stay. |
| Malloc.Arena.Realloc | lib/stdlib.c:75-92 | Null and zero sizes as malloc and free; else a block with room that starts with the old contents, in place of the old one among the live blocks, or the block itself when it is large enough, every other live block unchanged; or null with nothing changed. |
| KernelHeap.FindRun | os/kernel/mm.c:22-34 | The search that skips past each used page finds the lowest run of n free pages whenever one exists. |
| KernelHeap.LiveApart | os/kernel/kmem.c:30-77 | Live objects never overlap. |
| KernelHeap.LiveNotOther | os/kernel/kmem.c:30-77 | No live object lies on a page that other code holds. |
| KernelHeap.Slabs.LowFree | os/kernel/mm.c:40-46 | The loop frees the pages, and panics exactly when one of them is not low memory's to give or not in use. |
| KernelHeap.Slabs.TakePages | os/kernel/mm.c:22-38 | Other code gets the lowest run of free pages, cleared and nobody else's, or none exactly when there is none; the heap stays valid. |
| KernelHeap.Slabs.GivePages | os/kernel/mm.c:40-50 | Pages other code holds go back without a panic; the heap stays valid. |
| KernelHeap.Slabs.OwnerStore | os/kernel/kmem.c:30-61 | A store into a live object or into other code's page by its owner keeps the heap and its lists valid. |
| KernelHeap.PagesExact | os/kernel/kmem.c:35-37 | The 32-bit page count covers the request if and only if it is at most 0xFFFFF000 bytes; past that it is zero. |
| KernelHeap.GivenTwice | os/kernel/kmem.c:35-41 | For 0xFFFFFFFF bytes the page returned is one already given out, or other code's, when page first is in use outside slabs. |
| KernelHeap.Slabs.LowAlloc | os/kernel/mm.c:22-34 | The lowest run of free pages is marked and cleared, live objects, lists and other code's pages untouched, or there is none. |
| KernelHeap.Slabs.Carve | os/kernel/kmem.c:51-55 | The carving loop chains every object of the page, through the objects' own words, in front of the list. |
| KernelHeap.ObjectsAll | os/kernel/kmem.c:51-55 | It leaves out no object of the page. |
| KernelHeap.Slabs.Refill | os/kernel/kmem.c:47-56 | A free page becomes a slab of the class with all its objects on the list, nobody's bytes touched, or there is no free page and nothing changes. |
| KernelHeap.Slabs.ClassOf | os/kernel/kmem.c:43-46 | The doubling loop finds the smallest class whose objects hold the request. |
| KernelHeap.Slabs.TakeFirst | os/kernel/kmem.c:57-60 | The first object of a list is unlinked and cleared; live objects and other code's pages keep their bytes. |
| KernelHeap.Slabs.Kmalloc | os/kernel/kmem.c:30-61 | Up to 0xFFFFF000 bytes: a zeroed object of at least the requested size, apart from every live one and from other code's pages, none of which changes; null exactly when no page run and no free object can serve it; every object on a slab page is live or on its list, and every low page is free, a slab, in one run or other code's. Past that, and only then, the invariant is lost: the first low page is returned and marked as a run of no pages. |
| KernelHeap.Slabs.Kfree | os/kernel/kmem.c:63-77 | The object goes back to its list or its pages are freed, so that nothing is lost; no other live object changes, nor other code's pages. |

## Left out

- CompileExpr.ExprOk: takes trees with locals and parameters only; pointers, arrays, structs, globals and calls are not modelled, and constants under a cast in a right operand must fit the cast type, which CastDropExact shows to be needed.
- CompileStmt.RunStmt: labels named by goto statements, case labels inside nested statements and zeroing of aggregates are not modelled; executions that never end are Divergence.CallMeans.
- Functions.CallOk: the function body makes no calls.
- The processor model of the compiler proof holds the instructions the code generator emits, over RAM, by instruction rather than by byte encoding; the legacy 16-bit instruction set is not modelled.
- MemoryRuns.RunRefinesPlain: covers runs without shared mappings, on the simpler machine; MemoryShared.RunRefinesCopying covers all.
- MemoryRegions.MmapOk: needs a place in user addresses and no orphaned page; regions are whole pages; sbrk and exec are not modelled, and unmapping is kept to user addresses.
- Kernel memory pages and the order in which page-table pages are taken from low memory are abstracted to a count; a frame number out of range, where the kernel panics, is a no-op that the invariant rules out.
- Tlb.TranslateOk: page tables outside RAM are bus errors; tables in ROM or device registers are not modelled.
- Exceptions.FlatRoundTrip: paging off; Paging.PagedRoundTrip is the same with it on.
- Paging.PagedPlain: word accesses by the supervisor; tables outside RAM are bus errors, and the cached translation is that of Tlb.
- BusWrites.BuiltRunSame: what a fetch, an event or an instruction writes is any function of the state it starts from; the debugger's writes and loading a snapshot, which empties the cache, are not modelled.
- DiskFiles.IwriteOk: an inode is a value; its byte layout in the inode blocks and the bitmap's bytes are not modelled.
- Directories of the image builder (lookup, link_name, mkdir_in, resolve), which it keeps as file contents, are not modelled.
- Linker.FieldOk: needs relocations of one object not to overlap, which TwoPass.ObjectOk shows of the assembler's output, and objects whose fields lie in their sections, which ReadExact says when the reader ensures; section positions do not wrap at 2^32; object and executable file headers are not modelled.
- TwoPass.NeverMoved: one direction only, since an operand with a later name can happen to have the same value in both passes; ForwardSizeMoves shows one that has not.
- TwoPass.PassesAgree: statements come parsed, with mnemonics as their encoding and opcodes; macros, includes, .org and flat output are not modelled.
- StringLiterals.StringRound: of directives only .ascii and the literal .byte 0 line are modelled.
- Messages9P.InPlaceOk: pointer sums past the end of the address space are not modelled.
- Fcalls.ConvIsDecode: strings are read without moving them; FcallBuffers.ReadCallIs is the switch that moves them.
- DirReads.InOrder: for directories that DirComplete is for.
- DirReads.DirComplete: for directories whose records take less than 2^32 bytes, past which WrapRestarts applies; the directory stays as it is between reads.
- FidTable.RunOk: handlers are outcomes, acquiring nothing on error; attach, clone and clunk handlers are present.
- Malloc.Arena.Malloc: sbrk moves a break used by nobody else.
- KernelHeap.Slabs.Kmalloc: a cell of an object's first byte stands for the word stored there.
- Host I/O, terminals, networking, the shells and small programs, the preprocessor and the parser are not part of this model.
