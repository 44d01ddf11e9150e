# Bavy: a verified model of the emulator core

This project models the RV64IMAC emulator in `riscv-vm` and proves what its fast paths and its shared-memory
protocols are for. Every file is Dafny; `dafny verify dfyconfig.toml` checks all of it.

What is modelled, module by module:

- **Words and memory** (`Base`, `Bits`, `BitLaws`, `Memory`): 64-bit words as bounded integers with explicit wrap-around,
  bit operations and fields defined bit by bit, and flat DRAM as 8-byte words with natural alignment and a range check.
- **Address translation** (`Mmu`, `MmuProofs`, `TlbImpl`): Sv39/Sv48 walks that write accessed and dirty flags into the
  tables they read, and the 64-entry direct-mapped TLB, as functions and as an array with a walk loop.
- **Interpreter** (`Decoder`, `Compressed`, `Hart`, `CsrFile`, `Traps`, `TrapProofs`, `Interpreter`): decoding, expansion,
  control registers, traps, interrupt selection and the one-instruction step.
- **The architecture as reference** (`PageWalk`, `BaseFormats`, `ByteMemory`, `TrapTables`, `Arithmetic`, `IsaSteps`,
  `IsaMemory`): what the RISC-V manuals say about translation, instruction formats, memory, trap entry and every
  instruction, stated on bits, bytes and register numbers without the functions of the interpreter, and the proofs that
  the interpreter, and through it the blocks, do that.
- **Superblocks** (`MicroOp`, `Block`, `MicroAgreement`, `FetchProofs`, `Twins`, `BlockCorrect`, `BlockTheorems`): the compiler
  to micro-operations, the block runner with its own ALU, and the proof that a block does what the interpreter does.
- **Engine** (`Engine`, `Text`, `EngineProofs`, `Freshness`, `Departures`, `BlockCache`, `Cpu`): block cache, chaining, decode
  cache and whole runs; when cached blocks are right, and runs in which they are not; and the hart as an object with its
  register file, TLB and bus, every step of which is proved against those functions.
- **Devices and protocols**: the interrupt controller (`Plic`), the UART ring (`Ring`, `RingProtocol`), word DRAM with
  compare-and-exchange stores (`Dram`, `CasStores`), the devicetree builder with an independent reader (`Dtb`, `DtbParser`,
  `DtbTree`, `DtbSize`, `DtbGenerator`), and chunked frames (`Chunks`).

## How the main theorems are stated

Two machines are *twins* when they have the same hart and the same memory up to accessed/dirty bits in page-table words,
both with a TLB that agrees with the tables. Block correctness and the run-level simulation say that the block side and
the interpreter side are twins. The hypotheses are about the interpreter's run only. Each executed instruction has legal
function fields, writes no page-table word, and reads none whose marks a walk could still change (`QuietAt`; the words are
given as `Tables`, the unchangeable ones as `fixed`). Block correctness also asks that the run does not write the words
compilation fetched from (`ReadsIn`).

Whole runs (`GoodAt`, `GoodFor`) ask less of code: an instruction that is executed must not differ from what compiling at
an earlier point of the run may have read at its address (`Window`, `Known`). Nothing is asked about instructions that
are not executed again, about address spaces or about modes; `HomesAreGood` derives it for runs in which each page is
executed in one space and code is not written. Excluded are further only stores refused after giving up a reservation and
odd addresses that do not translate. What happens outside is shown at inputs (`StaleRun`, `PatchRun`, `MarkSeen`) and
stated exactly: `HitIsFresh` and `StaleExact` for cached blocks, `AgreementExact` for illegal function fields,
`BlockCorrect` for refused stores and odd addresses.

## Where the code departs from its description or from the architecture

- Encodings with illegal function fields are compiled to a no-op, while the interpreter traps.
- A store refused by the bus has already given up the reservation in the interpreter but not in a block.
- A compilation at an odd address that does not translate reports the page fault, the interpreter the misalignment.
- C.SRAI is expanded to a logical shift, because bit 11 of the immediate is set instead of bit 10.
- With 100 or more harts the interrupt controller of hart 99 has the PLIC's phandle.
- `check_pending_interrupt` reports machine interrupts only if not delegated and supervisor interrupts only if delegated; a
  supervisor interrupt left to Machine mode is never taken (`NeverTaken`). The architecture's rule is met for all harts
  exactly if the three supervisor interrupts, and no machine interrupt, are delegated (`TakesAllExact`).
- SFENCE.VMA and writes to satp empty the TLB and the decode cache but not the block cache, although the comments on the
  cache say so; mode changes and stores into code do not touch it either. Blocks are found by pc alone, so a stale block
  can be run (`StaleRun`, `PatchRun`).
- Compilation marks page-table entries before the instructions that need them are reached; a block can read such a mark
  (`MarkSeen`).
- A refused read-modify-write inside DRAM reports a store access fault even when it is misaligned, and the physical address.
- AMOMIN.W and AMOMAX.W compare words in the native build, which is the one modelled; the WASM build compares the
  sign-extended word with the whole register, which is right exactly for the registers of `WideCompareExact`.
- SRET is illegal in Machine mode, where section 3.3.2 of the Privileged Architecture allows it.
- A failed SC keeps the reservation, where section 8.2 of the Unprivileged ISA ends it; reservations are on virtual
  addresses (`ScSteps`).
- Compressed encodings that the ISA calls hints (destination x0) are rejected as illegal.
- The comment on the SFENCE.VMA mask asks for rd = 0; the mask does not test rd, and neither does the model.
- The UART ring is called single-producer, which is what the protocol proof assumes.

## Model

| member | source | states |
|---|---|---|
| BlockTheorems.BlockCorrect | riscv-vm/src/engine/block.rs:102-184 | Compiling at the current pc and running the block gives the registers, control registers, mode, reservation, memory, next pc and trap of as many interpreted instructions, for every memory and every address space, up to TLB contents and accessed/dirty marks; after a trap the reservations differ exactly if the store was refused by the bus. A compilation trap is the interpreter's own trap if and only if the pc is even or translates |
| BlockTheorems.BareBlockCorrect | riscv-vm/src/cpu/core.rs:443-1266 | In Machine mode or with translation off the two sides end in the same machine: equal hart and equal contents of every memory word |
| BlockTheorems.AgreementExact | riscv-vm/src/engine/block.rs:251-727 | The micro-operation of an instruction and the interpreter's execution of it correspond if and only if the function fields are legal; every other encoding is a no-op in a block and a trap when interpreted |
| BlockTheorems.IllegalDiffers | riscv-vm/src/engine/block.rs:251-727 | An illegal encoding does nothing in a block and always traps in the interpreter |
| BlockTheorems.CompilePlans | riscv-vm/src/engine/block.rs:102-184 | The result of compilation is determined by tables and code bytes alone, and compiling changes nothing but accessed/dirty marks and a coherent TLB |
| BlockTheorems.KeptPlan | riscv-vm/src/engine/block.rs:102-184 | While code bytes and address space stay, compiling later, from any state, yields the same block |
| BlockTheorems.Layout | riscv-vm/src/engine/block.rs:117-183 | A compiled block has 1 to 64 operations and at most 4 bytes per operation, each operation is the one of the instruction found at its offset, every instruction starts in the first one's page, and the recorded successor is the fall-through address or the final JAL's target |
| BlockTheorems.SuccessorReached | riscv-vm/src/engine/block.rs:139-181 | A run that continues at n although a successor t was recorded continues at n = t, although WFI does not end a block |
| BlockTheorems.Passes | riscv-vm/src/engine/block.rs:121-183 | The compilation loop makes at most 65 passes |
| BlockTheorems.PlannedRun | riscv-vm/src/cpu/core.rs:443-1266 | A block compiled earlier does what the interpreter does when it is run anywhere in the space it was compiled for |
| BlockTheorems.PlanTrapIsFirst | riscv-vm/src/engine/block.rs:102-146 | When compilation reports a trap the interpreter's next step traps, with the same trap exactly if the pc is even or translates |
| BlockCorrect.OpsSimulate | riscv-vm/src/cpu/core.rs:443-1266 | From any operation of a block on, the run and the interpreter stay in step, with traps at the same instruction |
| BlockCorrect.CompileIsPlan | riscv-vm/src/engine/block.rs:121-183 | The loop that translates, fetches and appends produces the block read off the initial memory, although translation marks the tables on the way |
| BlockCorrect.OpInStep | riscv-vm/src/cpu/core.rs:457-1260 | One operation and one interpreted instruction keep twin machines twins |
| BlockCorrect.MicroIgnoresPc | riscv-vm/src/cpu/core.rs:443-460 | A block run does not depend on the stale pc field of the hart |
| BlockCorrect.RunKeeps | riscv-vm/src/cpu/core.rs:443-1266 | A block run changes neither mode nor control registers nor register 0, and reports only traps handlers can see |
| MicroAgreement.MicroAgrees | riscv-vm/src/cpu/core.rs:457-1260 | From the same state, a legal instruction and its micro-operation write the same registers, memory, TLB and successor, or trap alike; a refused store differs in the reservation only |
| MicroAgreement.AluAgrees | riscv-vm/src/cpu/core.rs:457-848 | Both ALUs compute the same register write for every legal computation, although blocks read register 0 as a register |
| MicroAgreement.MulwAgrees | riscv-vm/src/cpu/core.rs:783-791 | MULW by a 64-bit product equals MULW by a 128-bit product |
| MicroAgreement.DivwAgrees | riscv-vm/src/cpu/core.rs:792-806 | DIVW in 32 bits equals DIVW in 64 bits truncated, the overflowing case included |
| MicroAgreement.DivuwAgrees | riscv-vm/src/cpu/core.rs:807-819 | DIVUW at both widths is the same, division by zero included |
| MicroAgreement.RemwAgrees | riscv-vm/src/cpu/core.rs:820-834 | REMW at both widths is the same |
| MicroAgreement.AddiwAgrees | riscv-vm/src/engine/block.rs:501-506 | ADDIW depends on the low word of its immediate only, so truncating the immediate when the block is compiled is harmless |
| MicroAgreement.LegalMeansNotDropped | riscv-vm/src/engine/block.rs:251-727 | Exactly the illegal function fields are compiled to the no-op |
| Decoder.OffsetsEven | riscv-vm/src/engine/decoder.rs:149-168 | Decoded jump and branch offsets are even, so the interpreter's misaligned-target traps cannot occur in a block |
| FetchProofs.FetchAgreement | riscv-vm/src/engine/block.rs:187-248 | Compiler and interpreter fetch the same instruction word and length, or the same trap, for every memory content and pc, page-crossing instructions and the end of DRAM included |
| FetchProofs.InterpreterFetch | riscv-vm/src/cpu/core.rs:1301-1366 | The interpreter's fetch, aligned word path included, returns what a plain halfword fetch through the tables returns |
| FetchProofs.CompilerFetch | riscv-vm/src/engine/block.rs:187-248 | So does the compiler's fetch, which reuses its first translation |
| FetchProofs.AlignedIsPlain | riscv-vm/src/cpu/core.rs:1310-1327 | Reading an aligned word at once equals reading it halfword by halfword with a translation each |
| FetchProofs.ResolvePage | riscv-vm/src/mmu.rs:428-441 | Translation keeps the page offset and maps a page as a whole |
| Twins.TwinExecute | riscv-vm/src/cpu/execution.rs:260-1109 | Two machines that differ only in TLB contents and accessed/dirty marks execute the same instruction with the same trap and stay such a pair, as long as it writes no table and reads no entry a walk could still mark |
| Twins.TwinTranslate | riscv-vm/src/mmu.rs:259-444 | Such machines translate every address alike |
| EngineProofs.RunSimulates | riscv-vm/src/cpu/execution.rs:70-195 | Run-level simulation: any number of block-enabled steps, with caching, any eviction, decode cache, chaining and blocks switched on and off at will, through any modes and address spaces, lead where the interpreter gets to, with the same traps in the same order, after between n and 1025 n instructions for n steps, as long as no instruction is executed that has changed since compilation may have read it |
| ProgramText.TextSimulates | riscv-vm/src/cpu/core.rs:443-1266 | A cached block, however old, does what the interpreter does if the instructions executed meanwhile are still those it was compiled from |
| ProgramText.WindowHolds | riscv-vm/src/engine/block.rs:102-184 | A block compiled in a state is made of instructions in the window of that state |
| Freshness.HomesAreGood | riscv-vm/src/cpu/execution.rs:952-1011 | A run satisfies the hypothesis of the run theorems if each page is executed in one address space only and code words are not written: user code, kernel and firmware may take turns through traps and returns |
| Freshness.HitIsFresh | riscv-vm/src/engine/cache.rs:119-129 | A block found in the cache is the one compiling now would return if and only if the present tables and code bytes plan it |
| Freshness.CachedIsCompiled | riscv-vm/src/engine/cache.rs:43-129 | While code bytes and address space stay, each current-generation cached block equals what compiling at its pc would produce now |
| Freshness.StepKeepsFresh | riscv-vm/src/engine/cache.rs:55-63 | Steps keep that so, whatever they compile, insert and evict |
| Freshness.StaleExact | riscv-vm/src/cpu/execution.rs:75-130 | Where nothing can be fetched at pc any more, a step that finds a block there does what the interpreter does, in one instruction, if and only if the block hands its first instruction back |
| Departures.StaleRun | riscv-vm/src/cpu/execution.rs:952-975 | Two steps from cold caches in which MRET leads to a page where nothing is mapped and the stale block is run: the engine reports the fault at the wrong address |
| Departures.PatchRun | riscv-vm/src/engine/cache.rs:72-80 | One step from cold caches in which a block runs an instruction it has just overwritten, and the interpreter the one that was stored |
| Departures.MarkSeen | riscv-vm/src/mmu.rs:407-426 | A block that loads a page-table entry marked by the compilation of its last instruction reads the mark, the interpreter does not |
| Departures.SpinIsGood | riscv-vm/src/cpu/execution.rs:236-1109 | The hypotheses of the run theorems can be met at every step of an endless run |
| EngineProofs.ChainInSync | riscv-vm/src/cpu/execution.rs:70-195 | A chain of blocks of the text leads where the interpreter gets to in as many instructions, with the same traps |
| EngineProofs.TryInSync | riscv-vm/src/cpu/execution.rs:75-165 | The same for a chain entered through the cache or the compiler |
| EngineProofs.RunCounts | riscv-vm/src/cpu/core.rs:443-1266 | A block run completes or traps on at least one instruction unless it hands the first one back |
| BlockTheorems.OnlyTransfersContinue | riscv-vm/src/cpu/core.rs:1087-1218 | Exactly the control transfers leave a block for a known pc, and JAL for its own target |
| EngineProofs.ColdRun | riscv-vm/src/cpu/execution.rs:16-195 | From cold caches, any number of steps ends in exactly the interpreter's hart, with the same traps, and in its memory but for accessed/dirty marks |
| EngineProofs.BareRun | riscv-vm/src/cpu/execution.rs:16-195 | With translation off it ends in the very same machine, every memory word included |
| EngineProofs.StepSimulates | riscv-vm/src/cpu/execution.rs:16-195 | The same for one step, and the caches stay right |
| EngineProofs.DecodeCacheTransparent | riscv-vm/src/cpu/core.rs:216-236 | The step with the decode cache is the step without it, and cached decodings stay correct |
| EngineProofs.BoundedWork | riscv-vm/src/cpu/execution.rs:70-195 | A step executes at least one instruction and at most 16 blocks of 64 operations and one interpreted instruction |
| EngineProofs.TwinStep | riscv-vm/src/cpu/execution.rs:236-1109 | Machines that differ in TLB contents and marks take the same interpreter step |
| EngineProofs.StalePc | riscv-vm/src/cpu/execution.rs:113-118 | Trap entry from a block does not look at the stale pc field |
| EngineProofs.ZeroStays | riscv-vm/src/cpu/core.rs:252-256 | Register 0 holds 0 after every interpreted instruction |
| CpuModel.Cpu.Step | riscv-vm/src/cpu/execution.rs:16-68 | The step on the hart object: the new hart, caches and reported trap are those of the step function for some choice of evicted blocks |
| CpuModel.Cpu.TryExecuteBlock | riscv-vm/src/cpu/execution.rs:70-195 | The chaining loop computes the recursive specification of chains |
| CpuModel.Cpu.FindOrCompile | riscv-vm/src/cpu/execution.rs:75-165 | Lookup, and at the start of a chain compilation and insertion |
| CpuModel.Cpu.RunOne | riscv-vm/src/cpu/execution.rs:96-130 | One block of a chain, and whether the chain goes on |
| CpuModel.Cpu.Compile | riscv-vm/src/engine/block.rs:102-184 | The compilation loop over pc, offset and the block buffer computes the compiled block |
| CpuModel.Cpu.Append | riscv-vm/src/engine/block.rs:134-182 | One pass of that loop: decode, push, and the decision to go on, stop or refuse |
| CpuModel.Cpu.constructor | riscv-vm/src/cpu/core.rs:70-92 | A fresh hart has misa and mhartid set, the other registers zero, Machine mode, an empty TLB and empty caches |
| CpuModel.Cpu.Translate | riscv-vm/src/cpu/core.rs:419-434 | Translation with the hart's TLB object, its satp and mstatus, and the bus does what the translation function says |
| CpuModel.Cpu.FetchInsn | riscv-vm/src/engine/block.rs:187-248 | The compiler's fetch, by translations and bus loads one after the other, yields the word, length or trap and leaves the TLB and tables of the fetch function; FetchProofs.CompilerFetch says what that is |
| CpuModel.Cpu.FetchAndExpand | riscv-vm/src/cpu/core.rs:1301-1366 | The same for the interpreter's fetch, which translates again when the word cannot be read |
| CpuModel.Cpu.ExecuteBlockInner | riscv-vm/src/cpu/core.rs:443-1266 | The execution loop, with registers, reservation, TLB and memory updated in place, computes the block run |
| CpuModel.Cpu.ExecuteOp | riscv-vm/src/cpu/core.rs:457-1260 | One operation executed in place is the block step |
| CpuModel.Cpu.StepSingleInner | riscv-vm/src/cpu/execution.rs:236-1109 | The interpreter step in place, with decode-cache lookup, insertion and invalidation |
| CpuModel.Cpu.Execute | riscv-vm/src/cpu/execution.rs:260-1109 | Execution of a decoded instruction in place is the interpreter's step function |
| CpuModel.Cpu.ExecStore | riscv-vm/src/cpu/execution.rs:429-457 | A store gives up a conflicting reservation after translation and before the bus is asked |
| CpuModel.Cpu.ExecRmw | riscv-vm/src/cpu/execution.rs:801-884 | A read-modify-write by a load and a store; refused inside DRAM it reports a store fault |
| CpuModel.Cpu.ExecCsr | riscv-vm/src/cpu/execution.rs:1022-1090 | Control-register instructions on the register file; a write to satp empties the TLB |
| CpuModel.Cpu.ExecPrivileged | riscv-vm/src/cpu/execution.rs:896-1011 | SFENCE.VMA, EBREAK, WFI, ECALL, MRET and SRET in place |
| CpuModel.Cpu.HandleTrap | riscv-vm/src/cpu/core.rs:308-413 | Trap entry by single register updates computes the trap-entry function |
| CpuModel.EvictionUnused | riscv-vm/src/cpu/execution.rs:132-136 | Nothing is compiled or evicted inside a chain |
| BlockCacheModel.BlockCache.GetAndTouch | riscv-vm/src/engine/cache.rs:119-129 | A lookup finds exactly the current-generation block, adds one to its execution count up to the greatest 32-bit number, and changes nothing else |
| BlockCacheModel.BlockCache.Insert | riscv-vm/src/engine/cache.rs:55-63 | After insertion the block is found, with count 0; other blocks are the old ones minus the evicted, and a full cache evicts at least a quarter of its blocks or all its cold ones |
| BlockCacheModel.BlockCache.EvictCold | riscv-vm/src/engine/cache.rs:83-108 | Exactly as many cold blocks go as a quarter of all blocks, at least one, or as there are cold blocks if they are fewer; if the cache is still full, exactly the blocks older than the previous generation go too |
| BlockCacheModel.BlockCache.ScanCold | riscv-vm/src/engine/cache.rs:85-96 | The scan, in whatever order, collects that many cold blocks |
| BlockCacheModel.BlockCache.Flush | riscv-vm/src/engine/cache.rs:66-70 | After a flush no block of the previous generation is found |
| BlockCacheModel.BlockCache.InvalidateRange | riscv-vm/src/engine/cache.rs:74-80 | Exactly the blocks that overlap the physical range are dropped |
| BlockCacheModel.BlockBuffer.Push | riscv-vm/src/engine/block.rs:58-66 | Push appends to the array unless 64 operations are in it |
| MmuProofs.TlbTransparent | riscv-vm/src/mmu.rs:301-441 | From an empty TLB under one satp, over any run of translations with any modes, mstatus values, accesses and addresses, every call answers what an empty TLB would answer |
| MmuProofs.AdBitsInvisible | riscv-vm/src/mmu.rs:334-441 | Memories that differ only in bits 6 and 7 of 8-byte words translate every address alike, for every mode, privilege setting and access, even with self-mapped tables and superpages |
| MmuProofs.TranslateSound | riscv-vm/src/mmu.rs:259-444 | One translation answers what the tables say, keeps the TLB coherent with the tables it writes, and changes memory only by turning on accessed (and for stores dirty) in one table word |
| MmuProofs.ResolveAgrees | riscv-vm/src/mmu.rs:334-441 | Marks in table words do not change what any address resolves to |
| MmuProofs.CanonicalPage | riscv-vm/src/mmu.rs:301-309 | Canonical addresses with equal virtual page numbers share a page |
| MmuProofs.MarkAgrees | riscv-vm/src/mmu.rs:407-426 | The write-back succeeds and only turns on accessed and dirty flags of one word |
| MmuProofs.FillCoherent | riscv-vm/src/mmu.rs:428-437 | Filling a slot keeps the TLB coherent |
| TlbImpl.TranslateAddr | riscv-vm/src/mmu.rs:259-444 | The imperative translation computes result, TLB and memory of the translation function |
| TlbImpl.Walk | riscv-vm/src/mmu.rs:334-444 | The walk loop computes the recursive walk with its write-back |
| TlbImpl.FinishWalk | riscv-vm/src/mmu.rs:380-441 | What a leaf leads to: permission and alignment faults, marks, TLB entry, address |
| TlbImpl.Mark | riscv-vm/src/mmu.rs:407-418 | Accessed always, dirty for stores, nothing else |
| TlbImpl.WriteBack | riscv-vm/src/mmu.rs:420-425 | The entry is stored only if it changed |
| TlbImpl.Tlb.Flush | riscv-vm/src/mmu.rs:134-138 | Every entry becomes invalid and keeps its other fields |
| TlbImpl.Tlb.Lookup | riscv-vm/src/mmu.rs:185-196 | A hit needs validity, the page number, and the ASID unless global |
| TlbImpl.Tlb.Insert | riscv-vm/src/mmu.rs:228-234 | The direct-mapped slot is overwritten |
| TrapProofs.TrapsUnwind | riscv-vm/src/cpu/core.rs:308-413 | Well-nested traps unwind: over any run with at most one outstanding trap per target mode whose software keeps the saved fields, every return restores pc, mode and enable bit, at every depth, and outer saved fields survive |
| TrapProofs.PairRestores | riscv-vm/src/cpu/execution.rs:952-1011 | One trap, its handler and its return |
| TrapProofs.TrapKeepsPrivilege | riscv-vm/src/cpu/core.rs:322-334 | A trap never lowers the privilege level and Machine mode never delegates |
| TrapProofs.DeliveryAgrees | riscv-vm/src/cpu/core.rs:1368-1433 | A reported interrupt is delivered to the mode whose enables were tested with the selected bit as cause; afterwards nothing is reported and mip, mie and mideleg are unchanged |
| TrapProofs.SelectsHighest | riscv-vm/src/cpu/core.rs:1368-1433 | An interrupt is reported exactly if a candidate is deliverable under the architecture's rule, and it is the one of highest priority |
| TrapProofs.TakesAllExact | riscv-vm/src/cpu/core.rs:1368-1433 | For a value of mideleg, every hart with it reports an interrupt exactly when one of the six standard ones is deliverable, if and only if exactly the three supervisor interrupts are delegated |
| TrapProofs.NeverTaken | riscv-vm/src/cpu/core.rs:1368-1433 | Any other delegation of a standard interrupt leaves it untaken in User mode although it is deliverable |
| TrapProofs.SoftwareInterruptIgnored | riscv-vm/src/cpu/core.rs:1368-1433 | The supervisor software interrupt, not delegated, pending and enabled in User mode, is not reported |
| TrapProofs.EnterSBits | riscv-vm/src/cpu/core.rs:343-360 | Supervisor entry moves SIE to SPIE, clears SIE, records SPP, and leaves every other mstatus bit |
| TrapProofs.EnterMBits | riscv-vm/src/cpu/core.rs:384-395 | Machine entry moves MIE to MPIE, clears MIE, records MPP, and leaves every other mstatus bit |
| TrapProofs.MretBits | riscv-vm/src/cpu/execution.rs:967-975 | MRET restores MIE from MPIE, sets MPIE, clears MPP, and leaves every other mstatus bit |
| TrapProofs.SretBits | riscv-vm/src/cpu/execution.rs:999-1006 | SRET restores SIE from SPIE, sets SPIE, clears SPP, and leaves every other mstatus bit |
| TrapProofs.EntrySaves | riscv-vm/src/cpu/core.rs:336-410 | Entry saves pc, mode and enable bit and keeps the other mode's saved fields |
| TrapProofs.ReturnRestores | riscv-vm/src/cpu/execution.rs:952-1011 | A return restores what the saved fields hold |
| CsrModel.WindowBits | riscv-vm/src/cpu/csr.rs:38-102 | Through sstatus, sie and sip exactly the writable bits of the machine register change, everything else stays, and reads show the visible bits |
| CsrModel.WindowReadsBack | riscv-vm/src/cpu/csr.rs:38-102 | A value written through sstatus or sie reads back as its visible bits |
| CsrModel.CsrFile.ReadCsr | riscv-vm/src/cpu/csr.rs:38-63 | A read of the array computes the read function, privilege check included |
| CsrModel.CsrFile.WriteCsr | riscv-vm/src/cpu/csr.rs:65-102 | A write to the array computes the write function; read-only registers and refused writes leave it unchanged |
| CsrModel.CsrFile.Import | riscv-vm/src/cpu/csr.rs:28-36 | Restoring sets the given registers and zeroes the others |
| PlicModel.ClaimIsBest | riscv-vm/src/devices/plic.rs:530-550 | A claim returns an eligible source of greatest priority, the lowest id on ties, and 0 exactly when none is eligible |
| PlicModel.NoSecondClaim | riscv-vm/src/devices/plic.rs:447-550 | From any state, a source handed to a context is not handed to it again before the context has completed it, whatever happens in between |
| PlicModel.CompletionReopens | riscv-vm/src/devices/plic.rs:499-507 | A completed source that is still asserted, enabled and over the threshold can be claimed again |
| PlicModel.FastCheckExact | riscv-vm/src/devices/plic.rs:203-231 | The lock-free check never misses an eligible source, and its false positives are exactly the cases in which every enabled, pending, over-threshold source is already active |
| PlicModel.RegisterMap | riscv-vm/src/devices/plic.rs:386-520 | Priority of a source at 4 * source, pending bits at 0x1000, enable bits of a context at 0x2000 + 0x80 * context, threshold and claim at 0x200000 and 0x200004 + 0x1000 * context, each reached at these offsets and no others |
| PlicModel.StoreMap | riscv-vm/src/devices/plic.rs:447-520 | What a 4-byte store leaves in every register, by arithmetic on the offset: priorities, enables and thresholds take the low word, the claim register clears the active bit of the source its low 16 bits name, and nothing else changes |
| PlicModel.LoadMap | riscv-vm/src/devices/plic.rs:386-437 | What a 4-byte load at each offset answers; the claim register answers the best source and sets its active bit, other loads change nothing, and other offsets and widths answer 0 |
| PlicModel.SetSource | riscv-vm/src/devices/plic.rs:267-287 | Setting a source bit changes that bit only |
| PlicModel.Plic.constructor | riscv-vm/src/devices/plic.rs:61-85 | A new controller is all zero, with caches equal to the state |
| PlicModel.Plic.ClaimFor | riscv-vm/src/devices/plic.rs:530-555 | The claim loop finds the best source, marks it active and nothing else |
| PlicModel.Plic.IsInterruptPendingFor | riscv-vm/src/devices/plic.rs:567-601 | The accurate check is true exactly if some source is eligible |
| PlicModel.Plic.IsInterruptPendingForFast | riscv-vm/src/devices/plic.rs:203-231 | The cache-only check is true exactly if some source is pending, enabled and over the threshold |
| PlicModel.Plic.Store | riscv-vm/src/devices/plic.rs:447-520 | A store updates the addressed register and its cache, or completes, and nothing else |
| PlicModel.Plic.Load | riscv-vm/src/devices/plic.rs:386-437 | A load answers from the caches and only the claim register changes state |
| PlicModel.Plic.SetSourceLevel | riscv-vm/src/devices/plic.rs:267-287 | A level change sets one pending bit and its cache |
| PlicModel.Plic.SetPriority | riscv-vm/src/devices/plic.rs:323-334 | Restoring priorities keeps the caches equal to the state |
| PlicModel.Plic.SetEnable | riscv-vm/src/devices/plic.rs:344-355 | Restoring enables keeps the caches equal to the state |
| PlicModel.Plic.SetThreshold | riscv-vm/src/devices/plic.rs:358-369 | Restoring thresholds keeps the caches equal to the state |
| PlicModel.Plic.SetActive | riscv-vm/src/devices/plic.rs:372-380 | Restoring active bits touches no cache |
| PlicModel.Plic.SetPending | riscv-vm/src/devices/plic.rs:337-341 | Restoring pending bits updates the cache |
| RingProtocol.RingSafe | riscv-vm/src/shared_mem.rs:588-637 | Under every interleaving of index loads, byte accesses and index stores, and any mixture of single and batched calls, bytes delivered are a prefix of bytes accepted and at most 4087 are unread |
| RingProtocol.UnreadStays | riscv-vm/src/shared_mem.rs:588-735 | No step of a run overwrites an unread byte |
| RingProtocol.NothingLost | riscv-vm/src/shared_mem.rs:588-735 | When both sides rest, the ring holds exactly the accepted bytes not yet delivered, in order |
| RingProtocol.TakeDelivers | riscv-vm/src/shared_mem.rs:698-735 | From any reachable state with the reader at rest, and whatever the writer is in the middle of, a read run alone delivers the oldest unread bytes: as many as asked for, or all |
| RingProtocol.PutAccepts | riscv-vm/src/shared_mem.rs:654-695 | A write run alone publishes its bytes in order: all that fit beside the unread ones into 4087 |
| RingProtocol.StockIsPublished | riscv-vm/src/shared_mem.rs:705-720 | A reader that has seen a write index takes exactly the lesser of what it wants and the bytes published up to there |
| RingProtocol.StepKeepsInv | riscv-vm/src/shared_mem.rs:773-824 | Every atomic step of either side keeps the invariant; the input ring runs the same code on indices and bytes of its own |
| RingProtocol.RoomIsFree | riscv-vm/src/shared_mem.rs:670-684 | The free-space arithmetic on two wrapped indices is the number of free slots |
| RingProtocol.UnreadCounts | riscv-vm/src/shared_mem.rs:713-718 | The unread arithmetic on two wrapped indices is the number of unread bytes |
| Ring.BatchWriteRefines | riscv-vm/src/shared_mem.rs:654-695 | A batched write accepts min(len, free) bytes and leaves the ring, slot for slot, as that many single writes |
| Ring.BatchReadRefines | riscv-vm/src/shared_mem.rs:698-735 | A batched read returns what repeated single reads return and leaves the ring alike |
| Ring.SharedUart.Write | riscv-vm/src/shared_mem.rs:588-612 | A single write on the object |
| Ring.SharedUart.Read | riscv-vm/src/shared_mem.rs:615-637 | A single read on the object |
| Ring.SharedUart.WriteMany | riscv-vm/src/shared_mem.rs:654-695 | The batch loop with one index store equals the bytes written one by one |
| Ring.SharedUart.ReadMany | riscv-vm/src/shared_mem.rs:698-735 | The batch loop with one index store equals the bytes read one by one |
| Dram.WordsRefineBytes | riscv-vm/src/dram.rs:745-918 | Word DRAM refines byte DRAM: any mix of loads and stores of all widths at any addresses gets the same answers, errors included |
| Dram.LoadRefines | riscv-vm/src/dram.rs:745-812 | A load from the words returns what the load from the bytes returns |
| Dram.StoreRefines | riscv-vm/src/dram.rs:817-918 | A store to the words does to the bytes of DRAM what the byte store does, and leaves the rest of the shared buffer alone |
| Dram.ByteOfWithByte | riscv-vm/src/dram.rs:824-835 | Masking in a byte changes that byte of the word only |
| Dram.ByteOfWithHalf | riscv-vm/src/dram.rs:860-870 | Masking in a halfword changes its two bytes only |
| Dram.Ram.Store8 | riscv-vm/src/dram.rs:817-848 | The compare-and-exchange loop of a byte store, run alone, performs the store |
| Dram.Ram.Store16 | riscv-vm/src/dram.rs:851-884 | The compare-and-exchange loop of a halfword store, run alone, performs the store |
| Dram.Ram.CompareExchange | riscv-vm/src/dram.rs:837-843 | Exchange exactly if the expected word is found |
| CasStores.StoresExact | riscv-vm/src/dram.rs:817-901 | For any number of workers and every interleaving of loads and exchanges there is one order of the stores, each taking effect once, in program order per worker, such that memory is what plain byte stores in that order produce; words outside DRAM are untouched |
| CasStores.StepExact | riscv-vm/src/dram.rs:837-847 | Every atomic step keeps that correspondence |
| CasStores.FinishIsStore | riscv-vm/src/dram.rs:837-847 | A successful exchange is the byte store of its request |
| DtbTree.MachineRoundTrip | riscv-vm/src/dtb.rs:66-260 | For every hart count, memory size and device configuration, a reader written from section 5 of the Devicetree Specification v0.4 gets the intended tree back from the blob, as long as it is below 4 GiB |
| DtbSize.MachineFits | riscv-vm/src/dtb.rs:66-260 | With at most two million harts the blob is below 4 GiB, and the reader gets the intended tree back |
| DtbSize.BlobBound | riscv-vm/src/dtb.rs:281-419 | The blob of any tree is linear in the lengths of its names and values |
| DtbGenerator.GenerateDtb | riscv-vm/src/dtb.rs:66-260 | The generator returns the blob of the intended tree, and the reader gets the tree back from it |
| DtbParser.RoundTrip | riscv-vm/src/dtb.rs:281-419 | The same for every tree with NUL-free names |
| DtbParser.NamesResolve | riscv-vm/src/dtb.rs:352-362 | Every name offset resolves to its name and different names have different offsets |
| Dtb.NamesDistinct | riscv-vm/src/dtb.rs:352-362 | The string table has no duplicates |
| DtbParser.HeaderReads | riscv-vm/src/dtb.rs:379-418 | Header magic, versions, sizes and offsets are exact |
| DtbParser.CellsRead | riscv-vm/src/dtb.rs:321-330 | An array of cells is big-endian words in order |
| DtbParser.RegReads | riscv-vm/src/dtb.rs:332-342 | A 64-bit address and size are two big-endian cells each, high word first |
| DtbTree.PhandlesDistinct | riscv-vm/src/dtb.rs:92-150 | Phandles are distinct if and only if there are at most 99 harts |
| DtbTree.MachinePhandles | riscv-vm/src/dtb.rs:92-150 | The phandles of the tree are 1 to the hart count and 100 |
| Dtb.StructStep | riscv-vm/src/dtb.rs:290-362 | A builder call appends its encoding and leaves what is already encoded valid |
| Dtb.DtbBuilder.BeginNode | riscv-vm/src/dtb.rs:290-294 | The blocks are those of the calls so far plus a node start |
| Dtb.DtbBuilder.EndNode | riscv-vm/src/dtb.rs:296-298 | ... plus a node end |
| Dtb.DtbBuilder.AddProp | riscv-vm/src/dtb.rs:300-350 | ... plus a property, its name interned once |
| Dtb.DtbBuilder.AddPropString | riscv-vm/src/dtb.rs:300-310 | A string property ends in NUL |
| Dtb.DtbBuilder.AddPropU32Array | riscv-vm/src/dtb.rs:321-330 | An array property is its cells in order |
| Dtb.DtbBuilder.StringOffset | riscv-vm/src/dtb.rs:352-362 | The offset of a name, added on first use; the map and the block stay in agreement |
| Dtb.DtbBuilder.AlignStruct | riscv-vm/src/dtb.rs:373-377 | Zero bytes up to the next multiple of four |
| Dtb.DtbBuilder.Finish | riscv-vm/src/dtb.rs:379-418 | Header, reservations, structure and strings in order |
| DtbGenerator.EmitMachine | riscv-vm/src/dtb.rs:66-258 | The calls of the generator are those of the intended tree |
| DtbGenerator.EmitCpuNodes | riscv-vm/src/dtb.rs:92-114 | The loop over the harts |
| DtbGenerator.EmitD1 | riscv-vm/src/dtb.rs:186-254 | The optional devices |
| Chunks.ExactlyOnce | riscv-vm/src/napi_bindings.rs:427-450 | If no chunk of a frame comes again after the frame is complete, the frame is handed over exactly once when all its chunks arrive and not at all otherwise, whatever else arrives and in whatever order |
| Chunks.OnlySentFrames | riscv-vm/src/napi_bindings.rs:427-450 | With any order, loss, duplication and mixing only frames that were sent come out |
| Chunks.DecodeMessage | riscv-vm/src/napi_bindings.rs:42-76 | Decoding an encoded chunk gives back identifier, index, count and payload for frames of 951 to 229500 bytes |
| Chunks.MessageBytes | riscv-vm/src/napi_bindings.rs:42-58 | A chunk on the wire byte by byte: type 2, identifier high byte first, index, count, and the up to 900 frame bytes from 900 times the index on |
| Chunks.TotalFits | riscv-vm/src/napi_bindings.rs:43-45 | One byte can count the chunks exactly up to 229500 bytes |
| Chunks.CompleteIsFrame | riscv-vm/src/napi_bindings.rs:439-444 | All payloads in order are the frame |
| Chunks.EncodeChunkedFrame | riscv-vm/src/napi_bindings.rs:42-58 | The encoding loop produces the chunk messages in order |
| Chunks.EncodeFrameSmart | riscv-vm/src/napi_bindings.rs:78-86 | Frames above 950 bytes take the next identifier, others are sent whole |
| Chunks.Reassembler.OnDatagram | riscv-vm/src/napi_bindings.rs:427-453 | One datagram on the reassembly map |
| PageWalk.TranslateFollows | riscv-vm/src/mmu.rs:259-444 | On a TLB hit and on a walk alike, the answer is the one section 4.3.2 of the RISC-V Privileged Architecture (20211203) gives for the tables in memory, stated on the bits of satp, mstatus, address and the entry words: sign extension, the walk, user bit with SUM, execute, write, read or MXR, superpage alignment, the physical address, and which fault otherwise |
| PageWalk.ResolveFollows | riscv-vm/src/mmu.rs:301-444 | What the tables resolve to is that answer |
| PageWalk.RunFollows | riscv-vm/src/mmu.rs:259-444 | From an empty TLB, every call of every run of translations under one satp gives the answer for the tables the run began with |
| PageWalk.AnsweredExactly | riscv-vm/src/mmu.rs:447-486 | A paged translation of a canonical address answers if and only if the walk ends at a leaf word whose bits permit the access and whose page number is aligned to the page size; and with which address |
| PageWalk.MarkedBits | riscv-vm/src/mmu.rs:407-418 | Marking sets bit 6, for stores bit 7, and no other bit of the entry word |
| BaseFormats.DecodeFollows | riscv-vm/src/engine/decoder.rs:137-252 | For every 32-bit word, decoding yields the instruction of the opcode with register and function fields and immediate placed bit by bit as in the base formats of section 2.3 of the RISC-V Unprivileged ISA 20191213, and words with any other opcode are illegal |
| BaseFormats.Immediates | riscv-vm/src/engine/decoder.rs:261-313 | The five immediates, bit by bit, over their full range |
| ByteMemory.LoadMeans | riscv-vm/src/dram.rs:145-203 | A load of any width is the little-endian number of the bytes of memory, if it is aligned and inside DRAM, and the misalignment or access fault otherwise |
| ByteMemory.StoreMeans | riscv-vm/src/dram.rs:207-272 | A store changes the bytes it covers to those of the value and no other byte, if it is aligned and inside DRAM |
| ByteMemory.ReadOverWrite | riscv-vm/src/dram.rs:145-270 | A byte read after a store returns the byte of the stored value inside the access and the old byte outside it |
| ByteMemory.ReadBack | riscv-vm/src/dram.rs:145-270 | A read of the same width after a store returns the stored value, truncated to the width |
| ByteMemory.NativeLoads | riscv-vm/src/dram.rs:145-203 | The loads of the harts are those of the byte DRAM, refusals included |
| ByteMemory.NativeStores | riscv-vm/src/dram.rs:207-272 | So are the stores |
| TrapTables.AccessTraps | riscv-vm/src/cpu/core.rs:280-413 | Trap entry in terms of register numbers: misalignment, access and page faults of fetches, loads and stores enter with codes 0/4/6, 1/5/7 and 12/13/15 and the address as trap value, in the mode the bit of medeleg selects, at the base of its trap vector, with pc, mode and enables saved and no other register changed |
| TrapTables.InstructionTraps | riscv-vm/src/cpu/core.rs:280-413 | So do illegal instructions with code 2 and the bits, breakpoints with 3, and environment calls with 8 plus the privilege level |
| TrapTables.InterruptTraps | riscv-vm/src/cpu/core.rs:280-413 | So do interrupts, with the top bit of the cause set, mideleg deciding, and four times the code added to the base exactly in vectored mode |
| TrapTables.HostTraps | riscv-vm/src/cpu/core.rs:301-320 | Traps for the host leave the hart as it is |
| TrapTables.Returns | riscv-vm/src/cpu/execution.rs:952-1009 | MRET and SRET by register numbers and bits: mode, pc, every bit of mstatus, every other register |
| Arithmetic.LogicResults | riscv-vm/src/cpu/execution.rs:511-616 | Exclusive or, or, and: bit by bit |
| Arithmetic.ShiftResults | riscv-vm/src/cpu/execution.rs:511-616 | The three shifts, bit by bit, by the low six bits of the amount |
| Arithmetic.SumResults | riscv-vm/src/cpu/execution.rs:511-616 | Sums and differences wrap around once at most |
| Arithmetic.MulResults | riscv-vm/src/cpu/execution.rs:511-616 | The low half of the product, and the three high halves as the floor of the exact product |
| Arithmetic.DivResults | riscv-vm/src/cpu/execution.rs:511-616 | Signed division truncates and the remainder is smaller than the divisor with the dividend's sign; by 0, and for the overflowing pair, as in chapter 7 of the Unprivileged ISA |
| Arithmetic.DivuResults | riscv-vm/src/cpu/execution.rs:511-616 | Unsigned division and remainder |
| Arithmetic.WordShiftResults | riscv-vm/src/cpu/execution.rs:649-719 | The word shifts, bit by bit |
| Arithmetic.WordDivResults | riscv-vm/src/cpu/execution.rs:649-719 | The signed word divisions, with the word's own overflow |
| Arithmetic.WordMulResults | riscv-vm/src/cpu/execution.rs:649-719 | The word product is the low word of the product of the words |
| IsaSteps.InterpreterComputes | riscv-vm/src/cpu/execution.rs:257-719 | Every legal computation, interpreted, leaves in rd what the ISA says (without naming either ALU), in register 0 nothing, the other registers, memory and control registers as they were, and moves the pc by the instruction's length |
| IsaSteps.BlockComputes | riscv-vm/src/cpu/core.rs:457-848 | So does its micro-operation |
| IsaSteps.InterpreterTransfers | riscv-vm/src/cpu/execution.rs:263-319 | Branches, JAL and JALR: when taken, where to, and which link address is written |
| IsaMemory.HartTranslates | riscv-vm/src/cpu/core.rs:419-434 | A hart translates by its mode, satp (0x180) and mstatus (0x300) |
| IsaMemory.FetchMeans | riscv-vm/src/cpu/core.rs:1301-1366 | The fetch both engines agree with reads the two halfwords where their own translations lead, and reports bus errors as instruction faults at the pc |
| IsaMemory.LoadSteps | riscv-vm/src/cpu/execution.rs:320-428 | A load leaves in rd the number of the bytes at the translated address, extended bit by bit, or traps, misalignment before range |
| IsaMemory.StoreSteps | riscv-vm/src/cpu/execution.rs:429-457 | A store leaves the bytes of rs2 at the translated address and changes no other byte; when the reservation goes |
| IsaMemory.AmoSteps | riscv-vm/src/cpu/execution.rs:801-884 | What memory word, register and reservation hold after each of the nine read-modify-writes at both widths, and how a refused one traps |
| IsaMemory.LrSteps | riscv-vm/src/cpu/execution.rs:748-766 | LR loads, extends and reserves the 64 bytes of the virtual address |
| IsaMemory.ScSteps | riscv-vm/src/cpu/execution.rs:767-799 | SC stores and writes 0 if the reservation is on the same 64 bytes, and writes 1 and changes nothing else if it is not |
| IsaMemory.WideCompareExact | riscv-vm/src/bus.rs:1587-1708 | Comparing whole registers, as the WASM build does for AMOMIN.W and AMOMAX.W, stores the right word for every word in memory if and only if the register is a sign-extended word, or lies above all words with the greatest word as its low half, or below all with the least |
| IsaMemory.CsrProtected | riscv-vm/src/cpu/csr.rs:38-70 | No CSR instruction reaches a register whose bits 9:8 are above the mode: illegal instruction |
| IsaMemory.CsrSteps | riscv-vm/src/cpu/execution.rs:1011-1090 | CSR instructions on plain registers: the old value in rd; bits written, set or cleared; read-only registers and all others unchanged; a write to satp empties the TLB |
| IsaMemory.SystemSteps | riscv-vm/src/cpu/execution.rs:896-1010 | SFENCE.VMA, MRET, SRET, ECALL, EBREAK and WFI: in which mode each does what, and that exactly the remaining words and modes are illegal |
| IsaMemory.TimeRead | riscv-vm/src/cpu/execution.rs:1014-1017 | The time register reads the doubleword at 0x0200BFF8 |
| IsaMemory.WindowMasks | riscv-vm/src/cpu/csr.rs:38-102 | Which bits of sstatus, sie and sip are shown and which can be written |
| Compressed.ExpansionFollows | riscv-vm/src/engine/decoder.rs:321-648 | The expansion follows chapter 16 of the RISC-V Unprivileged ISA 20191213, hints with destination x0 being rejected, on every 16-bit encoding if and only if it is not C.SRAI |
| Compressed.CSraiExact | riscv-vm/src/engine/decoder.rs:467-473 | The expanded C.SRAI is a logical shift; it is right exactly for non-negative operands or shift amount 0 |
| Compressed.CSraiExpands | riscv-vm/src/engine/decoder.rs:467-473 | C.SRAI expands with bit 11 of the immediate set instead of bit 10 |
| Compressed.Q0Follows | riscv-vm/src/engine/decoder.rs:334-384 | Quadrant 0 means what the ISA says |
| Compressed.Q1Follows | riscv-vm/src/engine/decoder.rs:386-567 | Quadrant 1 means what the ISA says |
| Compressed.AluFollows | riscv-vm/src/engine/decoder.rs:455-540 | The arithmetic group means what the ISA says |
| Compressed.Q2Follows | riscv-vm/src/engine/decoder.rs:569-648 | Quadrant 2 means what the ISA says |
| Compressed.CjAgrees | riscv-vm/src/engine/decoder.rs:386-567 | The scattered jump offset is gathered as in the ISA's format |
| Compressed.CbAgrees | riscv-vm/src/engine/decoder.rs:386-567 | The scattered branch offset is gathered as in the ISA's format |
| Compressed.DecodesI | riscv-vm/src/engine/decoder.rs:261-265 | Decoding an encoded I-type instruction gives its fields back |
| Compressed.DecodesB | riscv-vm/src/engine/decoder.rs:297-313 | Decoding an encoded branch gives its fields back |
| Compressed.DecodesJ | riscv-vm/src/engine/decoder.rs:287-295 | Decoding an encoded jump gives its fields back |
| Compressed.DecodesS | riscv-vm/src/engine/decoder.rs:279-285 | Decoding an encoded store gives its fields back |
| Compressed.DecodesR | riscv-vm/src/engine/decoder.rs:274-277 | Decoding an encoded register instruction gives its fields back |
| Compressed.DecodesU | riscv-vm/src/engine/decoder.rs:267-272 | Decoding an encoded LUI gives its fields back |

## Left out

- Interrupt polling inside `step` (the poll counter, CLINT and stimecmp): the model is the step in which the poll does not fire; selection and delivery are modelled on their own.
- SBI: an environment call from Supervisor mode always traps here; the source first offers it to `sbi/mod.rs`, which is not part of this model.
- MMIO and the devices behind `bus.rs`: memory is flat DRAM that faults outside its range; the `time` register reads the word at the timer's address.
- BlockTheorems.BlockCorrect: assumes that the instructions executed have legal function fields, write no page-table word, read none that a walk could still mark, and do not store into words the compiler fetched from.
- EngineProofs.RunSimulates: assumes that no executed instruction has changed since compilation may have read it; where the code runs a stale block instead is shown and delimited, not simulated.
- Instructions fetched from page-table words that a walk could still mark.
- CpuModel.Cpu.ExecRmw: the native build; the WASM build reports load faults for minimum and maximum operations refused inside DRAM, and compares words as `IsaMemory.WideCompareExact` says.
- Dirty flags on TLB hits: the code does not set them, so nothing is claimed about the dirty flag after a store that hits.
- The TLB's per-address, per-ASID and per-page flushes: the step functions do not use them.
- Execution counts influence only which cached blocks are evicted; run-level results hold for every choice of evicted blocks. Hit and miss counters are left out.
- Chains of block generations across a wrap-around of the 32-bit generation counter.
- The WASM 64-bit atomics and 64-bit stores by several workers: they are two separate 32-bit accesses in the source. Sequential 64-bit loads and stores are covered.
- RingProtocol.RingSafe: one producer and one consumer; several workers writing to the same ring at once are outside the protocol.
- Wrap-around of `offset + width` for DRAM offsets in the last bytes of the 32-bit range.
- The lock-free PLIC check racing with an update between state and cache: caches equal the state after every operation, and operations are taken as atomic.
- Network connection, registration and heartbeat messages around the chunk encoder; a JSON control message yields no frame.
- VirtIO, CLINT, UART registers, SBI, snapshots, loaders, the command line and the user interface.
