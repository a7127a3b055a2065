# FRISC-V: a model of the core and its boot path, with proofs

The core is a set of clocked state machines. Each register-transfer file has a module here with a datatype of its
registers, a function giving the state after one clock edge for given inputs, and a class whose `Clock` method updates
the same registers in place and is proved to do what that function says. Properties of whole runs are proved about the
functions, for every sequence of inputs: wait lines, requests, redirects and errors are arbitrary unless a lemma says
otherwise. C and Python code is modelled as methods and functions in the same way.

| area | files |
|---|---|
| words, instruction set, control words | `Words`, `Wrappers`, `Isa`, `Decoder` |
| multiplier and divider | `MulDiv` |
| pipeline stages and control | `IfStage`, `IdStage`, `ExStage`, `MemStage`, `WbStage`, `ControlUnit`, `Pipeline`, `Faults` |
| the pipeline theorem | `Refinement` (one cycle), `Program` (whole runs), `Progress` (no deadlock) |
| bus and fetch | `Arbiter`, `Fetch` |
| address translation | `Sv32` (the specification), `Ptw`, `Tlb`, `TlbContents`, `Mmu`, `MmuProof`, `MmuProgress` |
| atomics | `AmoUnit`, `Reservation` |
| privilege | `Privilege`, `Pmp`, `TrapStack` (one hart's mode and mstatus), `TrapOrder` (whose mode a trap has) |
| SD card | `Crc`, `SdBoot` |

The main results are `Program.Refines` and `Progress.Progresses` (the pipeline executes the program, and does not stop),
`MmuProof.RequestGetsVerdict` and `MmuProgress.RetiresWithinTen` (translation is the specification's, and ends),
`Ptw.Walks`, `TlbContents.ContentsKept`, `MulDiv.Computes`, `Fetch.FromReset`, `Arbiter.WaitsForAtMostOne`,
`MmuProgress.SfenceSettles`, `AmoUnit.RunIsAtomic`, `Reservation.ScOutcome`, `Pmp.VerdictFixed`,
`TrapStack.ReturnsRestore`, `TrapOrder.OnlyExLowers`, `TrapOrder.WedgedExactly`, `Crc.CrcIsRemainder`,
`Crc.BurstRejected` and `SdBoot.PackedBoots`.

Standards: RISC-V Unprivileged ISA 20191213, RISC-V Privileged Specification 20211203, SD Physical Layer Simplified
Specification, section 4.5.

## Where the code and its specifications part

- The NAPOT mask of the PMP checker is built from the two's complement of the address register. It is not the range of
  section 3.7.1 of the Privileged Specification; `Pmp.NapotAgrees` says for which addresses the two coincide (none of
  them reachable), and `Pmp.VerdictFixed` treats the match as a function of the entry and the address below it.
- A failing SC keeps the reservation (`Reservation.ScKeepsOrUses`, an instance in `Reservation.ReservationSurvives`),
  unlike section 8.2 of the Unprivileged ISA.
- A supervisor interrupt that is not delegated is never taken, unlike section 3.1.9 of the Privileged Specification;
  `TrapStack.InterruptLevels` says exactly when the two differ, `TrapStack.UndelegatedIgnored` is an instance.
- A trap can lower the privilege mode, although the comment at rtl/core/friscv_trap_controller.sv:430-436 has it that
  traps never do. A stall of the fetch bus holds a misaligned jump in EX but does not hold interrupts back, so the
  interrupt of a younger instruction can be taken first, and the older jump then traps, in its own mode, over the
  handler. `TrapOrder.LoweringRun` is such a run from reset, `TrapOrder.OnlyExLowers` the exact condition, and
  `TrapOrder.NeverLowers` says that nothing but such an overtaking does it.
- A misaligned jump does not kill what follows it before its own trap is taken. If any trap other than one of MEM, such
  as that of an ecall right behind the jump or an interrupt, is taken in the cycle EX captures the jump's, the once-only
  flag never clears: neither that trap nor any later one is taken. `TrapOrder.WedgingRun` is such a run from reset,
  `TrapOrder.WedgedExactly` says over all runs that this is the only way into that state, and
  `TrapOrder.FlagClears` that in every other state the flag clears at once.
- SRET leaves MPRV set when it leaves machine mode, unlike section 3.1.6.3 of the Privileged Specification (so does
  DRET). `TrapStack.SretCarriesMprv` is a run from reset with its consequence, `TrapStack.MprvStaysInM` the exact
  condition over runs.
- With fine flushing and satp Bare, an sfence.vma by page compares 9-bit page-number fields and misses superpages named
  by a page of their upper half (`TlbContents.BareFlushMisses`, exactly those, an instance in
  `TlbContents.BareFlushKeeps`). Fine flushing is off by default.
- An error together with wait releases the core from an AMO still under way (`AmoUnit.EarlyErrorReleases`).
- With the fast multiplier the divider is not generated, so the pipeline theorem is about the iterative unit;
  `ExStage.FastMulAgrees` covers the other multiplier.

## Modelling choices

- Words are integers in [0, 2^32) with wrap-around written out; CRC and PMP registers are bit vectors.
- In the pipeline the instruction memory is a function from addresses to decoded instructions, the data memory a map of
  bytes read and written through the byte lanes of the stages. Instructions in flight that are not of the sequential
  run (bubbles, NOPs of discarded fetches, instructions behind a taken branch) are shown to have no effect.
- In the MMU the page tables are a function from addresses to words or bus errors, fixed since reset or since a full
  flush; requests, waits and further flushes are arbitrary. satp names one of a family of address spaces, given by the
  root of each. Of the tables only this is asked: a global mapping is the same in every address space of the family (for
  a single one that says nothing, `MmuProgress.OneSpace`). Sv32 is the only paged mode a one-bit satp.MODE has.
- The card is a function from block numbers to 512 bytes or a failed read. Loader memory is a byte array.

## Model

| member | source | states |
|---|---|---|
| `MulDiv.Unit.Clock` | rtl/core/friscv_muldiv.sv:91-202 | one clock edge of the unit, field by field, is the step the lemmas below are about |
| `MulDiv.MulStep` | rtl/core/friscv_muldiv.sv:64-89 | an add-and-shift turn keeps the partial product exact: the accumulator window times its weight plus the bits already settled is always the product of the operands so far |
| `MulDiv.DivStep` | rtl/core/friscv_muldiv.sv:64-89 | a non-restoring turn keeps the partial remainder in [-m, m) and the quotient digits consistent with it, although the shifted intermediate wraps in 33 bits |
| `MulDiv.FinishDelivers` | rtl/core/friscv_muldiv.sv:154-164 | the last edge corrects a negative remainder and applies both signs, leaving the specified result |
| `MulDiv.Computes` | rtl/core/friscv_muldiv.sv:104-172 | for all operands and signedness, the specified 64-bit result appears exactly 2 or 35 edges after the start (special divisions, all others) and not before, whatever the inputs do meanwhile short of a flush |
| `MulDiv.DivisionLaw` | rtl/core/friscv_muldiv.sv:154-160 | quotient times divisor plus remainder is the dividend, the remainder is smaller than the divisor and takes the sign of the dividend |
| `MulDiv.SpecialCases` | rtl/core/friscv_muldiv.sv:124-132 | division by zero and signed overflow give the results of section 7.2 of the RISC-V Unprivileged ISA |
| `ExStage.BranchUnitDecides` | rtl/core/friscv_branch_unit.sv:27-48 | the flags of one 33-bit subtraction decide all six branch conditions as the signed and unsigned comparisons |
| `ExStage.AluIsIsa` | rtl/core/friscv_ex_stage.sv:380-391 | the ten one-cycle operations of EX, gates and shifts one position at a time, give the ISA word for all operands |
| `ExStage.ShiftLaws` | rtl/core/friscv_ex_stage.sv:387-389 | a left shift is the product by 2^n modulo 2^32; right shifts are the quotient by 2^n rounded down, of the unsigned and of the signed number |
| `ExStage.AluLaws` | rtl/core/friscv_ex_stage.sv:382-391 | sums and differences hold modulo 2^32, every bit of the logical results is that of the operand bits, and the comparisons are the signed and the unsigned order |
| `ExStage.MdWordIsIsa` | rtl/core/friscv_ex_stage.sv:156-162 | with the requested signedness, the word taken from the unit is the ISA result of all eight M operations |
| `ExStage.FastMulIsIsa` | rtl/core/friscv_ex_stage.sv:209-223 | the one-cycle multiplier with 33-bit operands returns the ISA word of MUL, MULH, MULHU and MULHSU |
| `ExStage.FastMulAgrees` | rtl/core/friscv_ex_stage.sv:207-227 | fast and iterative multiplier give the same word for all four operations and all operands |
| `ExStage.Stage.Clock` | rtl/core/friscv_ex_stage.sv:171-310 | one edge of EX: input capture, the once-only branch pulse, the misaligned-branch trap, and the handshake with the unit |
| `MemStage.Stage.Clock` | rtl/core/friscv_mem_stage.sv:225-390 | one edge of MEM: trap commit, held fault, acceptance from EX, completion in place, reservation |
| `Pipeline.StoreReachesItsBytes` | rtl/core/friscv_ex_stage.sv:414-430 | placing store data in its byte lanes and writing those lanes is the byte store of the ISA, for every aligned width and address |
| `Pipeline.LoadFindsItsBytes` | rtl/core/friscv_mem_stage.sv:435-460 | reading the word and extending the addressed lanes is the load of the ISA |
| `IfStage.Stage.Clock` | rtl/core/friscv_if_stage.sv:54-79 | one edge of IF: redirect priority, discard of a stale fetch, advance, buffering of a word ID cannot take |
| `IdStage.Stage.Clock` | rtl/core/friscv_id_stage.sv:196-230 | one edge of the ID input registers, without fetch faults |
| `WbStage.Stage.Clock` | rtl/core/friscv_wb_stage.sv:63-91 | one edge of WB, which holds while memory stalls |
| `Pipeline.Datapath.Clock` | rtl/core/friscv_datapath.sv:193-581 | the five stage objects, wired as in the datapath, take one edge together with the register file and memory |
| `Faults.MisalignedBranchTraps` | rtl/core/friscv_ex_stage.sv:266-330 | a taken branch to a misaligned target does not redirect, and becomes a held trap in the first cycle EX is not stalled |
| `Faults.ExHoldsTrap` | rtl/core/friscv_ex_stage.sv:255-264 | until the trap is committed nothing leaves EX, whatever ID offers |
| `Faults.ExTrapLifetime` | rtl/core/friscv_ex_stage.sv:255-264 | from its capture to its commit an EX trap is held, and EX silent; after the commit trap and branch are gone |
| `Faults.FaultIsCaptured` | rtl/core/friscv_mem_stage.sv:267-369 | an operation completing with a fault writes no register and does not retire; its own PC, address and kind of fault are recorded, page before access before misaligned |
| `Faults.MisalignedIsRejected` | rtl/core/friscv_mem_stage.sv:289-300 | a misaligned operation never reaches the bus: taken from EX, right behind another operation or not, it is at once a held fault at its own address, and leaves the reservation alone |
| `Faults.FaultHeld` | rtl/core/friscv_mem_stage.sv:257-262 | the oldest fault is held and MEM does nothing more, in particular writes no register, until the trap is committed |
| `Faults.FaultLifetime` | rtl/core/friscv_mem_stage.sv:247-262 | from its capture to its commit a fault is held unchanged, and after the commit nothing is left of it: no fault, no reservation, nothing in MEM |
| `Refinement.LinesMean` | rtl/core/friscv_control_unit.sv:85-153 | what the stall and flush lines say of the stages: a stalled EX stalls ID without a bubble, a taken branch always flushes, a bubble enters EX exactly on a hazard |
| `Refinement.NoOlderWriter` | rtl/core/friscv_control_unit.sv:88-95 | ID never issues an instruction reading a register that an older instruction in EX, MEM or WB is still to write |
| `Refinement.OperandIsCurrent` | rtl/core/friscv_control_unit.sv:88-95 | so the register file already holds the value the sequential run gives that register |
| `Refinement.MdStep` | rtl/core/friscv_ex_stage.sv:171-201 | started and done_hold run the unit exactly once per multiply or divide and hold its result until EX moves on, however long memory stalls |
| `Refinement.MemStep` | rtl/core/friscv_mem_stage.sv:302-396 | MEM performs each operation once, buffers a load completed under a stall, and takes the next instruction when nothing stalls |
| `Refinement.JumpStep` | rtl/core/friscv_id_stage.sv:437-485 | a JAL or JALR in ID redirects exactly when it is not stalled, to the target of the sequential run; nothing else in ID redirects |
| `Refinement.RedirectStep` | rtl/core/friscv_control_unit.sv:147-153 | every redirect, branch or jump, lands on the next instruction of the sequential run |
| `Refinement.FetchStep` | rtl/core/friscv_if_stage.sv:61-79 | unless a taken branch has just entered EX, the fetch address is that of the next instruction of the sequential run |
| `Refinement.CycleKeeps` | rtl/core/friscv_control_unit.sv:85-153 | one cycle, whatever the two wait lines do, keeps the whole invariant that ties every stage to its place in the sequential run |
| `Program.Refines` | rtl/core/friscv_datapath.sv:193-581 | for every program of ALU, multiply/divide, load, store, branch, JAL and JALR instructions, every wait schedule, and every run up to the point where an instruction that traps would be fetched: registers and memory are those of one-at-a-time execution, and the register writes and bus writes of the run are exactly those of the retired and performed instructions, each once and in program order |
| `Progress.RankStep` | rtl/core/friscv_control_unit.sv:134-153 | each cycle without a wait retires the oldest instruction or brings it closer; a wait loses nothing |
| `Progress.Progresses` | rtl/core/friscv_control_unit.sv:134-153 | no deadlock: k + 1 times 42 wait-free cycles, however spread, retire more than k instructions |
| `Arbiter.Unit.Clock` | rtl/core/friscv_arbiter.sv:76-155 | one edge of the arbiter: issue selection, hold, frozen request, rotating priority |
| `Arbiter.OneOwner` | rtl/core/friscv_arbiter.sv:76-98 | at most one side owns the bus, it is idle exactly when none does, and an idle arbiter always grants a request |
| `Arbiter.WaitMeansOwnCompletion` | rtl/core/friscv_arbiter.sv:161-198 | a requesting side sees its wait line low exactly when its own transaction completes, and an error only on its own |
| `Arbiter.CommandConstant` | rtl/core/friscv_arbiter.sv:110-155 | an issued command is driven unchanged until the memory completes it, whatever the inputs do |
| `Arbiter.ServesAsAsked` | rtl/core/friscv_arbiter.sv:76-198 | over every run from reset the data commands the memory completes are the requests granted, in order, each with the address, size, data, atomic operation and direction of its request in the cycle of its grant, and the fetches are word reads at the addresses granted; only the one still held is missing |
| `Arbiter.GrantsComplete` | rtl/core/friscv_arbiter.sv:100-118 | over every run each granted transaction completes exactly once, but for the one still held |
| `Arbiter.WaitsForAtMostOne` | rtl/core/friscv_arbiter.sv:76-90 | from any state, a side that keeps requesting waits for at most one completed transaction of the other side |
| `Fetch.InvKept` | rtl/core/friscv_if_stage.sv:54-79 | a fetch the arbiter holds at an address that is no longer the PC is always marked for discard |
| `Fetch.FromReset` | rtl/core/friscv_if_stage.sv:54-91 | for any interleaving of redirects, stalls, data accesses and waits, every word handed to ID at PC p is the memory word at p, a discarded fetch hands it a NOP instead, and between redirects no PC is skipped or repeated |
| `Fetch.FetchedOnce` | rtl/core/friscv_if_stage.sv:61-79 | over every run each completed fetch is used once: handed over, dropped as overtaken, or made useless by a redirect, but for one word that may be waiting in the buffer |
| `Sv32.DecodeEncode` | rtl/core/friscv_pkg.sv:276-285 | an entry built field by field from a frame number, software bits and eight flags, in the layout of section 4.3.1, is decoded to those fields |
| `Sv32.EncodeDecode` | rtl/core/friscv_ptw.sv:178 | and any word is the entry built from its decoded fields |
| `Sv32.AddressFields` | rtl/core/friscv_ptw.sv:213-231 | for an address given by its two page-number fields and offset: where its entry lies at each level, its page number, and where it is in a page or superpage |
| `Sv32.LeafCoversPage` | rtl/core/friscv_ptw.sv:187-231 | the walk depends on the page number only, and a superpage leaf on its upper half only |
| `Ptw.Walker.Clock` | rtl/core/friscv_ptw.sv:92-181 | one edge of the walker: captured request, PTE register, level and state |
| `Ptw.StepKeepsRest` | rtl/core/friscv_ptw.sv:243-357 | each cycle outside a bus wait comes closer to the end; none changes what the rest of the walk leads to, and only the last reports it |
| `Ptw.AddressStable` | rtl/core/friscv_ptw.sv:187-231 | the address of a PTE is driven from the cycle before the read until the read completes |
| `Ptw.Walks` | rtl/core/friscv_ptw.sv:159-357 | for every page table and wait schedule a walk ends within five cycles without a wait and reports, once, the outcome of the two-level walk of section 4.3.2 of the Privileged Specification: leaf, page fault, unreachable frame or table, or bus error |
| `Tlb.Cache.LookUp` | rtl/core/friscv_tlb.sv:251-273 | the lookup loop returns the last matching entry |
| `Tlb.Cache.DetectClockVictim` | rtl/core/friscv_tlb.sv:203-209 | the downward loop returns the first unreferenced entry round from the hand, or the hand |
| `Tlb.Cache.Clock` | rtl/core/friscv_tlb.sv:100-245 | one edge of the TLB: hit marking, the four flush forms, fill, sweep, hand, registered lookup |
| `TlbContents.ContentsKept` | rtl/core/friscv_tlb.sv:106-167 | for a family of address spaces whose global mappings agree: any flush, and a fill of a page no entry is for with its leaf in the filling address space, keep every valid entry the leaf of the walk for every page and every address space it is for, and at most one entry for any page in any address space |
| `TlbContents.RunKeepsSound` | rtl/core/friscv_tlb.sv:92-181 | so over every run of lookups, fills and flushes that switches between the address spaces in any way |
| `TlbContents.FineFlushIsExact` | rtl/core/friscv_tlb.sv:109-144 | with fine flushing exactly the entries of the named page and address space go, global ones only by page; the others stay in place |
| `TlbContents.BareFlushMisses` | rtl/core/friscv_tlb.sv:86-94 | with satp Bare a fine flush by page fails to remove exactly the superpages named by a page of their upper half |
| `TlbContents.BareFlushKeeps` | rtl/core/friscv_tlb.sv:124-134 | an instance, from any state: the superpage of pages 0 to 1023, filled under Sv32, outlives a fine flush of page 512 with satp Bare |
| `TlbContents.LookupIsWalk` | rtl/core/friscv_tlb.sv:217-272 | for every address space: a hit returns exactly the frame and permissions of the walk of the page in its own tables, and there is a hit exactly when an entry of that address space, or a global one, is for the page |
| `TlbContents.ClockOrder` | rtl/core/friscv_tlb.sv:201-209 | everything between the hand and the victim is referenced, and a referenced entry is chosen only when all are |
| `TlbContents.HitIsReferenced` | rtl/core/friscv_tlb.sv:110-112 | a lookup that hits marks the entry that answered, which is one for the page in the address space, and only that one |
| `TlbContents.FillReplacesVictim` | rtl/core/friscv_tlb.sv:156-167 | a fill overwrites one slot only: an invalid one if there is any, else the clock victim, and marks it referenced |
| `TlbContents.EvictionSweeps` | rtl/core/friscv_tlb.sv:169-179 | exactly the entries the hand passes lose their reference bit, and the hand stops just past the victim |
| `TlbContents.NeverTheSameTwice` | rtl/core/friscv_tlb.sv:156-209 | two evicting fills in a row, whatever lookups, flushes and other fills come between, take different slots |
| `Mmu.Unit.Clock` | rtl/core/friscv_mmu.sv:128-540 | the arbiter, both TLBs, the walker and the unit's own registers take one edge together |
| `MmuProof.GrantIsRequest` | rtl/core/friscv_mmu.sv:243-262 | the context of a grant is that of the request of the side granted, and stays while it is held |
| `MmuProof.WalkReadsTable` | rtl/core/friscv_mmu.sv:516-538 | the reads of the walker are what is on the bus |
| `MmuProof.GateMeans` | rtl/core/friscv_mmu.sv:264-307 | whenever the validity gate passes, the registered TLB output is a lookup of the current TLB for the granted page |
| `MmuProof.DeniedMeans` | rtl/core/friscv_mmu.sv:450-507 | a permission fault is raised exactly when the looked-up leaf does not allow the request, and is of the kind of the request |
| `MmuProof.BusIsOwn` | rtl/core/friscv_mmu.sv:509-538 | every access on the bus other than a walk read is that of the granted request, permitted, and at its own translation |
| `MmuProof.AccessHeld` | rtl/core/friscv_mmu.sv:281-297 | an access the memory makes wait is driven again, command and address, even if a flush empties the TLBs meanwhile |
| `MmuProof.AccessHeldUntilDone` | rtl/core/friscv_mmu.sv:281-297 | and stays so until the memory completes it, whatever the inputs do |
| `MmuProof.TlbKept` | rtl/core/friscv_mmu.sv:128-202 | every fill is the leaf of the walk for an uncovered page, so both TLBs stay sound in every reachable state |
| `MmuProof.InvKept` | rtl/core/friscv_mmu.sv:237-540 | one cycle with any requests, waits and flushes keeps the invariant of the unit |
| `MmuProof.RetiresWithVerdict` | rtl/core/friscv_mmu.sv:450-540 | whenever the stall of a granted request falls, the outputs are the verdict of the specification for its latched context: access, page fault of its own kind, access fault, or walk bus error |
| `MmuProof.RequestGetsVerdict` | rtl/core/friscv_mmu.sv:237-538 | from grant to retirement: the context is that of the grant, the last cycle shows its verdict, and one access completes if the verdict is an access, none otherwise |
| `MmuProof.RequestOnBus` | rtl/core/friscv_mmu.sv:237-538 | in terms of the request as the core puts it: in machine mode or with satp Bare it is completed at its own address; otherwise if and only if the walk of its address is a leaf that allows its kind in its mode, at its own offset in the frame of the leaf; with the size, data, atomic operation and direction of the request, a word read for a fetch |
| `MmuProgress.ResetSound` | rtl/core/friscv_mmu.sv:259-297 | the invariant holds from reset, for any page tables, family of address spaces and satp in it |
| `MmuProgress.FlushSound` | rtl/core/friscv_tlb.sv:146-154 | and from a full flush taken with the walker idle, whatever is requested, held or waiting in that cycle: at once if no access waits, else for all but that access |
| `MmuProgress.FlushSettles` | rtl/core/friscv_mmu.sv:281-307 | since such a flush the invariant, and so the verdict of every later request, holds as soon as the access waiting across it, if there is one, is done |
| `MmuProgress.OrderlyKept` | rtl/core/friscv_mmu.sv:237-337 | in every run, whatever satp, the page tables and the flushes do, walks and waiting accesses belong to a held request |
| `MmuProgress.QuietAfterNoWait` | rtl/core/friscv_control_unit.sv:143-150 | after a cycle in which neither side waits nothing is held, walked or waiting |
| `MmuProgress.SfenceSettles` | rtl/core/friscv_ex_stage.sv:331 | hence the flush of an sfence.vma, which EX issues in the cycle after such a one, brings the invariant about from any reachable state, for any new satp and page tables |
| `MmuProgress.SwitchKept` | rtl/core/friscv_mmu.sv:259-307 | satp may move to another address space without a fence: between requests, in a cycle in which no lookup registered under the old one is used, the invariant is kept, now for the new one |
| `MmuProgress.RetiresWithinTen` | rtl/core/friscv_mmu.sv:299-337 | without flushes a granted request retires within ten cycles, waits of the memory apart |
| `AmoUnit.Unit.Clock` | rtl/core/friscv_amo_unit.sv:62-117 | one edge of the unit: frozen operands, captured load, state |
| `AmoUnit.StoreDataIsResult` | rtl/core/friscv_amo_unit.sv:83-97 | the operation table gives the ISA result of all nine operations |
| `AmoUnit.RunIsAtomic` | rtl/core/friscv_amo_unit.sv:48-127 | over every run each request is one read, then one write of the result of the value read and the operand frozen at the start, returning the old value; after a failed read there is no write |
| `AmoUnit.ReleasedAtTheEnd` | rtl/core/friscv_amo_unit.sv:54-60 | with errors only in cycles without wait, the core is released exactly when the write completes or the read fails; the bus writes exactly while a write is under way and is idle exactly when nothing is asked |
| `AmoUnit.EarlyErrorReleases` | rtl/core/friscv_amo_unit.sv:54-60 | the core is released while the unit is still at work exactly when an error comes together with wait during the read |
| `AmoUnit.WriteHeld` | rtl/core/friscv_amo_unit.sv:83-97 | the write data do not change while the write waits |
| `Reservation.ReservedIsLatestLr` | rtl/core/friscv_mem_stage.sv:330-338 | the reservation of the history is in force exactly when the latest LR took that address with no trap and no SC to it since |
| `Reservation.ScOutcome` | rtl/core/friscv_mem_stage.sv:212-217 | after any run from reset the SC in MEM drives a write and returns 0 exactly when that holds, and otherwise drives none and returns 1 |
| `Reservation.ScKeepsOrUses` | rtl/core/friscv_mem_stage.sv:371-378 | an SC taken into MEM clears the reservation register exactly when it finds its address there; a failing one leaves it, and its address, as they were |
| `Reservation.ReservationSurvives` | rtl/core/friscv_mem_stage.sv:371-378 | LR to a, SC to b, SC to a: the first SC drives no write and returns 1, the second drives one and returns 0, for all a and b |
| `Reservation.WritesExactlyOnce` | rtl/core/friscv_mem_stage.sv:212-217 | while it is in MEM an SC that found its reservation completes exactly one write and any other none, however long bus and stage wait |
| `Pmp.CsrTable.WriteCsr` | rtl/core/friscv_csr_file.sv:242-273 | one CSR write to the table, in place |
| `Pmp.LockedKept` | rtl/core/friscv_csr_file.sv:231-273 | over every sequence of writes a locked entry keeps its configuration and address, and a locked TOR entry the address below it |
| `Pmp.StaysSane` | rtl/core/friscv_csr_file.sv:219-273 | every sequence of writes keeps unusable entries zero and every entry without writing where there is no reading |
| `Pmp.SaneFromReset` | rtl/core/friscv_csr_file.sv:219-273 | so after any writes from reset unusable entries are zero, and no entry grants writing without reading |
| `Pmp.ByteReadsBack` | rtl/core/friscv_csr_file.sv:214-229 | a configuration byte reads back as written, without reserved bits, and without any permission if it asked for write without read |
| `Pmp.WriteTakesEffect` | rtl/core/friscv_csr_file.sv:231-273 | a write reaches exactly the usable, unlocked entries it names, a pmpaddr write only without a locked TOR entry above |
| `Pmp.TorTiles` | rtl/core/friscv_pmp_check.sv:50-57 | consecutive TOR entries never both match, and what lies between their outer bounds matches one |
| `Pmp.ModesOrdered` | rtl/core/friscv_pmp_check.sv:34-44 | user and supervisor mode may access the same, machine mode never less, and the same under a locked first match |
| `Pmp.Check` | rtl/core/friscv_pmp_check.sv:67-76 | the downward scan returns the verdict of the lowest-numbered match |
| `Pmp.VerdictIs` | rtl/core/friscv_pmp_check.sv:34-76 | the entry that governs is the lowest-numbered one whose range holds the address; it must grant every right asked for, in machine mode only if locked; where none governs only machine mode has access |
| `Pmp.VerdictFixed` | rtl/core/friscv_pmp_check.sv:34-76 | once entries 0 to i are locked, no writes change the verdict, in any mode, of an access whose first match is among them |
| `Pmp.NapotAgrees` | rtl/core/friscv_pmp_check.sv:50-64 | the power-of-two match as coded is the specified range for exactly three address values |
| `TrapStack.Hart.Clock` | rtl/core/friscv_trap_controller.sv:578-618 | one edge of the mode register with the push and pop of mstatus and the debug privilege field |
| `TrapStack.ModesStayLegal` | rtl/core/friscv_csr_file.sv:282-330 | in every reachable state, over any traps, returns and CSR writes, the mode, MPP and dcsr.prv are U, S or M |
| `TrapStack.InterruptLevels` | rtl/core/friscv_trap_controller.sv:190-224 | against section 3.1.9 of the Privileged Specification line by line: supervisor interrupts are those specified; machine interrupts are too, except exactly when supervisor lines that are not delegated are all that would interrupt |
| `TrapStack.UndelegatedIgnored` | rtl/core/friscv_trap_controller.sv:201-219 | in user mode after an MRET from reset a pending, enabled supervisor interrupt that is not delegated is not taken |
| `TrapStack.RoutesTraps` | rtl/core/friscv_trap_controller.sv:451-457 | machine interrupts go to M before supervisor interrupts go to S, exceptions to S when delegated and not raised in M; the half of mstatus pushed is that of the level entered |
| `TrapStack.HandlersAreMasked` | rtl/core/friscv_trap_controller.sv:190-224 | inside an M frame no interrupt is taken, inside an S frame none to S |
| `TrapStack.SecondReturn` | rtl/core/friscv_csr_file.sv:302-330 | however much later, a second MRET with neither a trap to M nor a write of mstatus between the two goes to U with machine interrupts on |
| `TrapStack.SecondSret` | rtl/core/friscv_csr_file.sv:290-322 | the same of SRET, with no trap to S and no write of either view of mstatus between the two, and supervisor interrupts on |
| `TrapStack.WritesReadBack` | rtl/core/friscv_csr_file.sv:331-382 | a CSR write that no trap or return drops leaves exactly the fields written, a reserved mode replaced by a legal one; sstatus leaves the machine half alone |
| `TrapStack.MprvStaysInM` | rtl/core/friscv_csr_file.sv:318-330 | over any run MPRV is off below machine mode throughout, exactly when no cycle carries it out: a set bit at an SRET, DRET or lowering trap in machine mode, or a write of it elsewhere |
| `TrapStack.HandlersOwnMemory` | rtl/core/friscv_csr_file.sv:550-551 | a machine handler entered from below loads and stores in its own mode exactly when the bit was off below |
| `TrapStack.SretCarriesMprv` | rtl/core/friscv_csr_file.sv:318-321 | a run from reset in which an SRET carries the bit out, and the next machine handler loads and stores in user mode |
| `TrapStack.DebugReturns` | rtl/core/friscv_trap_controller.sv:583-610 | DRET returns to the mode debug mode was entered from, whatever runs meanwhile short of a write of dcsr, and leaves mstatus alone |
| `TrapStack.LowersExactly` | rtl/core/friscv_trap_controller.sv:451-457 | at the ports of the trap controller: a trap lowers the privilege mode exactly when it is delegated although the hart is in machine mode, hence never when the trapping mode is the current one |
| `TrapStack.ReturnsRestore` | rtl/core/friscv_csr_file.sv:294-330 | over every well-nested run, S frames with M frames inside (interrupts nest by themselves, exceptions must not trap into their own level), each return restores the mode and both interrupt enables of the innermost open frame |
| `TrapStack.BalancedRunRestores` | rtl/core/friscv_csr_file.sv:294-330 | a program interrupted any number of times finds its own mode and interrupt enables again |
| `TrapOrder.Unit.Clock` | rtl/core/friscv_control_unit.sv:134-152 | the mode registers of ID, EX and MEM, the trap controller with its once-only flag, and the hart state take one edge together |
| `TrapOrder.ExFollows` | rtl/core/friscv_ex_stage.sv:255-307 | what this module keeps of EX (branch, stray branch or memory operation, redirect pulse, trap) moves as in the whole stage |
| `TrapOrder.MemFollows` | rtl/core/friscv_mem_stage.sv:247-396 | and what it keeps of MEM (operation under way, fault held) as in that stage, any trap taken committing it |
| `TrapOrder.OldestFirst` | rtl/core/friscv_trap_controller.sv:244-318 | nothing is taken over something older: MEM before EX, both before ID and debug mode, a fetch fault before the decoding of its word, and nothing at all behind a jump in the cycle it redirects, which also empties ID and is not pulsed again |
| `TrapOrder.TrapModeIsCurrent` | rtl/core/friscv_trap_controller.sv:437-449 | interrupts, and exceptions of every stage but EX, are raised in the current mode |
| `TrapOrder.OnlyExLowers` | rtl/core/friscv_trap_controller.sv:437-457 | after any run from reset a trap lowers the privilege mode exactly when it is EX's, of another mode than M, delegated, and finds the hart in machine mode with no machine interrupt or debug entry beside it |
| `TrapOrder.NeverLowers` | rtl/core/friscv_trap_controller.sv:340-346 | in every run in which the mode does not change over a misaligned jump in EX, each trap is of the current mode and none lowers it |
| `TrapOrder.LoweringRun` | rtl/core/friscv_ex_stage.sv:255-290 | a run from reset in which a trap does lower it: a machine interrupt is taken while a waiting fetch holds a misaligned jump of user mode in EX |
| `TrapOrder.FlagClears` | rtl/core/friscv_trap_controller.sv:552-556 | the once-only flag clears in the cycle after a trap is taken, unless EX holds a trap |
| `TrapOrder.WedgesExactly` | rtl/core/friscv_ex_stage.sv:266-276 | that comes about exactly in the cycle in which EX captures its trap while another, not one of MEM, is taken |
| `TrapOrder.WedgedExactly` | rtl/core/friscv_ex_stage.sv:266-276 | after any run from reset traps are off for good exactly when some cycle of it was one of those |
| `TrapOrder.WedgingRun` | rtl/core/friscv_trap_controller.sv:248-340 | three cycles from reset: a jump to a misaligned target, with an instruction right behind it that raises an exception in ID |
| `TrapOrder.WedgedForGood` | rtl/core/friscv_trap_controller.sv:340-346 | in that state, whatever happens, no trap or interrupt is taken any more |
| `Crc.Crc16Ccitt` | verif/directed/sd_read.c:142-154 | the two nested loops return the register of a serial CRC fed the bits of the data |
| `Crc.CrcIsRemainder` | verif/directed/sd_read.c:142-154 | for every length that is data(x) x^16 modulo x^16 + x^12 + x^5 + 1, and nothing else is |
| `Crc.CrcIsLinear` | verif/directed/sd_read.c:142-154 | the CRC of the sum of two blocks is the sum of their CRCs |
| `Crc.AcceptsIffZero` | verif/directed/sd_read.c:326-330 | the reader accepts a block exactly when block and CRC bytes together have CRC 0 |
| `Crc.BurstRejected` | verif/directed/sd_read.c:326-330 | every change of at most 16 consecutive bits in block and CRC is rejected |
| `SdBoot.SdMain` | sw/sdk/loaders/sdbl.c:300-357 | the loader reports the first check that fails, or leaves the image at the start of memory with the trampoline right behind its last word |
| `SdBoot.FileFormat` | sw/sdk/tools/mksdimg.py:22-30 | the file byte by byte: FRSC, the length and the wrapped total of the words, little-endian, in a block of zeros; then the payload, and zeros to whole words within the length and to whole blocks behind |
| `SdBoot.PackedBoots` | sw/sdk/tools/mksdimg.py:22-30 | a card written with the packed file boots exactly when the padded length is in (0, 0x10000000), with the padded payload loaded; otherwise the header is refused |
| `SdBoot.RoundTrip` | sw/sdk/tools/mksdimg.py:22-30 | packing, writing and booting leaves exactly the padded payload in memory and the trampoline behind it |
| `SdBoot.BootedMemory` | sw/sdk/loaders/sdbl.c:320-353 | any card it boots has a length in range, and the memory it jumps into holds that many bytes, rounded up to words, whose wrapped sum is the header's |

## Left out

- ExStage.Stage.Clock: without the program counter and target recorded with a trap, the CSR fields and the sfence.vma pulse, which feed CSRs and the TLB flush; the mode register is that of `TrapOrder`.
- MemStage.Stage.Clock: without the CSR fields, and without the modes of operations and faults, which are those of `TrapOrder`.
- IdStage.Stage.Clock: without the fetch-fault registers and the mode register, which `TrapOrder` has.
- WbStage.Stage.Clock: without the CSR fields of the stage, since CSR instructions are outside the pipeline theorem.
- Pipeline.Datapath.Clock: the trap, return, CSR, fault and halt wires are tied off, since programs are followed up to their first trap.
- TrapStack.Hart.Clock: without single step, the inhibit after a return (both are part of when an interrupt is safe, an input here) and the CSRs that no trap stacks.
- TrapOrder.Unit.Clock: register and CSR hazards, waits, interrupt lines and faults are inputs of the cycle, so its runs include some that other parts of the core exclude; `TrapOrder.LoweringRun` is a run of the mode and trap registers, its program is not followed through the datapath.
- CSR instructions, traps, interrupts, xRET, AMO and LR/SC glue, FENCE and halt in the pipeline theorem: the redirects, faults and hazards they add are separate protocols; the trap stack, the AMO unit and the reservation have their own modules.
- The instruction decoder and the immediate formats: single-branch facts; programs are sequences of decoded instructions.
- Fetch faults and the memory faults of a program that traps: `Program.Refines` follows a program up to its first misaligned access or jump target.
- Retired-instruction counting: a discarded fetch hands ID a NOP marked valid, so instr_ret also counts fillers; the pipeline theorem counts instructions of the program.
- PMP checks of walks and translated accesses inside the MMU (EnforcePmp, EnforcePtwPmp): off by default; the table and the checker are modelled alone.
- Page tables that change while they are cached: the walk specification is for a fixed memory between full flushes.
- MmuProgress.SwitchKept: says nothing of a lookup registered in the last cycle under the old satp and used in the first under the new one; the core drains a satp write before it issues another load or store.
- Restricted sfence.vma inside the MMU theorems needs no extra assumption; that a restricted flush removes enough entries after a page-table change is not stated.
- Sv39, Sv48 and Sv57 geometry of the walker: unreachable with a one-bit satp.MODE.
- The AMO address freeze in rtl/core/friscv.sv: released only on an idle cycle; AMO properties are stated at the unit.
- Debug mode beyond entry and return, single step, halt parameters, counters, timers and interrupt pending bits: many cases, little depth.
- Trap causes, vectors and values: tables of the trap controller without state.
- The cache, interrupt controllers, timer block and debug module: not part of this model; memory is nondeterministic in its waits.
- SPI polling, card initialisation and UART set-up in sdbl.c and sd_read.c: device input and output; the words of a block that fails half-way are not modelled.
- The machine code of the trampoline: a byte string copied behind the image.
- Build, test and generator scripts.
