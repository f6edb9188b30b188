# Verification of an ARMv7-A emulator, its devices and its boot firmware

The repository is an emulator for 32-bit ARM code (A32) with a handful of small devices and three pieces of firmware
written in assembly: a BIOS, a boot loader and a monitor. This project models the parts where the code is loops,
wrap-around and in-place shifting while the intention is simple, and proves the two agree.

| file | what it covers |
|---|---|
| `Popcount`, `Decoder`, `DecoderIndex`, `SeedTable` | the 4096-key decoder index against a scan of the rule table |
| `Options`, `Words`, `Shifter`, `Cpu`, `Alu`, `Conditions`, `Multiword` | Operand2, arithmetic, flags and conditions against ARM DDI 0406C |
| `OperandLaws`, `ArithmeticLaws` | the same once more in integers, from the instruction word and the registers |
| `Keyboard`, `Disk`, `Memory`, `Addressing`, `BlockTransfer`, `StackDiscipline` | devices, the memory map, loads, stores and stack frames |
| `AddressingLaws`, `TransferLaws`, `DeviceLaws` | addresses, base registers, lists and device registers in integers; the copy loop as instructions |
| `Machine`, `Emulator` | fetch, execute, commit; SVC and return; breakpoints and the halt latch; the same with the shipped decoder table |
| `MachineLaws`, `SelectionLaws` | conditions, MOV and steps in bits; which rows of the shipped table words select |
| `Firmware`, `Loader` | the sector primitive, the directory scan and the load loop of the BIOS and of BOOT |
| `BootLaws` | a whole boot stage in the bytes of the image |
| `Monitor`, `Console` | the line editor, from keyboard register to screen cell |
| `MonitorLaws` | every key and command, cell by cell |
| `Session`, `DeviceBus` | session variables as a finite map; the attach-and-lookup device bus |

C integers are `u32` and `byte` (ranges of `int`) with every wrap written out, except in the decoder, whose masks are
bit-vectors. Code that changes things in place is a class or a method over arrays, proved equal to a specification
function; the theorems are about those functions. The `...Laws` files then say what those functions are without calling
them: as sums, quotients, byte positions and literal texts.

## What the proofs found

- ADC, SBC and RSC compute V from an operand that already contains the carry or borrow. V is the complement of the
  architecture's exactly when that fold turns 0x7FFFFFFF into 0x80000000 (`Alu.FlagsMeetArchitecture`); ADCS of 0 and
  0x7FFFFFFF with carry in is one such input (`Emulator.AdcsMissesOverflow`).
- An arithmetic instruction with destination r15 does nothing: the handler writes its own context, and the commit in
  `cpu_execute` then moves r15 to the next instruction (`Emulator.ArithmeticStep`).
- The shifter used for load and store offsets shifts by 32 & 31 where ASR #0 means 32, and has no carry for RRX
  (`Addressing.AddressShiftIsSteps` gives exactly the operands that go wrong).
- Ten of the 102 decoder rows can match no instruction (`SeedTable.DeadExactly`). The CPS row only matches words whose
  condition field is 1111, which never holds, so its handler never runs: such a word is a no-op, unless it is also a BKPT
  word, as 0xF1200070 is, and then it is a breakpoint (`Emulator.CpsNeverRuns`). LDRSB and LDRD(imm) tie and LDRSB wins
  (`SeedTable.LdrsbHidesLdrd`).
- The shipped table has no row for a post-indexed word store with bit 21 set; its rows for PUSH and for the immediate
  comparisons are among the ten, and those words decode to STM and to the general comparison rows
  (`SelectionLaws.AfterSelected`, `BlockSelected`, `ArithmeticSelected`).
- A candidate list keeps sixteen rows. `DecoderSpec.ListedIffNotCrowded` says exactly which rows an overflow loses;
  `SeedTable.AtMostSixteen` shows the shipped table never overflows.
- `vm_clear_halt` clears the VM's latch and not the CPU's. A step after it halts again, and keeps r15 exactly when some
  row matches the word and its handler leaves r15 alone; a word no row matches is committed before the latch is looked
  at, and moves r15 on by four (`Emulator.LatchedStep`, and `Machine.LatchedNeverAdvances` over any interleaving of
  clears and steps). On a BKPT nothing at all changes (`Emulator.BkptHolds`).
- MOVS pc, lr clears bit 0 of the target, so it returns to the instruction after an SVC exactly when that address is
  even (`Emulator.SvcReturns`).
- With no disk in, the firmware's register addresses are plain memory. A read polls for ever exactly when the status
  address routes nowhere or its RAM word has the error and data bits clear (`SectorRead.StuckIff`); with the data bit
  set, RAM is copied as if it were a sector. `BootSpec.NoDiskOutcome` says exactly when a whole stage then hangs or
  reports a disk error.
- File lengths above 0xFFFFFE00 wrap to a sector count of 0, which the load loop takes as 2^32
  (`BootSpec.SectorCountIsCeiling`).
- The bus overlap test works on wrapped end addresses. It can be trusted with a region exactly when the region's end
  fits in 32 bits (`DeviceBus.TestTrustedIffPlain`).

Where code and prose differ, the model follows the code: the comment at the top of `firmware/monitor/monitor.s` lists
four commands, the code has a fifth, `time`; `firmware/bios/README.md` says the BIOS knows no disk, `bios.s` boots
from one.

## Model

| member | source | states |
|---|---|---|
| Popcount.Popcnt16Exact | src/cpu/execute.c:237-243 | the 16-bit SWAR count is the number of set bits, for every word |
| Popcount.Popcnt32Exact | src/cpu/execute.c:244-251 | the 32-bit SWAR count is the number of set bits, for every word |
| DecoderSpec.PriorityIsWeight | src/cpu/execute.c:253-257 | a row's priority is the number of bits its two masks test, without overflow in the byte it is kept in |
| DecoderSpec.InsertKeepsTop | src/cpu/execute.c:270-279 | inserting a matching row into a list that is not full keeps it the ranked list of the best matches so far |
| DecoderSpec.EvictKeepsTop | src/cpu/execute.c:280-290 | inserting into a full list and dropping its last slot keeps it the best sixteen |
| DecoderSpec.SkipKeepsTop | src/cpu/execute.c:267-290 | ignoring a row that does not match, or that a full list already beats, keeps it the best sixteen |
| DecoderIndex.K12Index.ShiftIn | src/cpu/execute.c:271-278 | the shifting loop opens the slot after all rows of equal or higher priority, moves the rest down by one with their priorities, and touches no other key |
| DecoderIndex.K12Index.Offer | src/cpu/execute.c:267-292 | offering row n turns the best list of the first n rows into that of the first n + 1, overflow path included |
| DecoderIndex.K12Index.BuildTable | src/cpu/execute.c:259-297 | for any table, every key ends with the best sixteen matching rows, priority descending then index ascending, and a parallel priority array |
| DecoderSpec.SlotIsRank | src/cpu/execute.c:259-297 | a listed row's slot number is the number of matching rows that come before it, so the table determines the list |
| DecoderSpec.ListLength | src/cpu/execute.c:259-297 | a list holds min(16, m) of the m matching rows |
| DecoderSpec.ListedIffNotCrowded | src/cpu/execute.c:280-290 | a matching row is on its list exactly when fewer than sixteen matching rows come before it |
| DecoderSpec.LinearScanIsBest | src/cpu/execute.c:259-343 | the reference scan finds the full match of highest priority and then lowest index, and nothing iff no row matches |
| DecoderSpec.WalkSelects | src/cpu/execute.c:314-339 | the first exact match along a key's list is the scan's winner, unless that row was crowded out; then there is none |
| DecoderIndex.K12Index.Decode | src/cpu/execute.c:306-346 | builds the index on first use and selects what the scan would unless crowded out; the no-op when that row is conditional and its condition fails, unknown when nothing is selected |
| DecoderSpec.NoOverflowDecodesLikeScan | src/cpu/execute.c:306-346 | when no more than sixteen rows match a key, decoding is the scan of the whole table |
| DecoderSpec.LongerMasksWin | src/cpu/execute.c:253-257 | a row whose masks strictly extend another's always wins over it |
| DecoderSpec.ReachableIff | src/cpu/execute.c:31-50 | for any row, some instruction matches it exactly when its key test and its exact test do not contradict each other |
| SeedTable.AtMostSixteen | src/cpu/execute.c:52-226 | no key has more than sixteen matching rows in the shipped table |
| SeedTable.SeedDecodesLikeScan | src/cpu/execute.c:52-226 | with the shipped table, decoding through the lists is the scan for every instruction word |
| SeedTable.DeadExactly | src/cpu/execute.c:52-226 | exactly ten of the 102 rows can match no instruction |
| SeedTable.LdrsbHidesLdrd | src/cpu/execute.c:109-143 | LDRSB and LDRD(imm) have equal priority, can both match, and LDRD(imm) is then not decoded |
| Shifter.RegisterShiftIsSteps | src/cpu/operand.c:121-189 | value and carry of a register-amount shift are those of that many one-bit steps, for every kind and every amount 0..255 |
| Shifter.ImmediateShiftIsSteps | src/cpu/operand.c:43-118 | value and carry of an immediate shift are those of one-bit steps (32 of them for LSR and ASR #0, one rotate through carry for ROR #0), except exactly LSR by a literal 32 of a word with bit 31 set, which no encoding produces |
| CpuModel.RotatedImmediate | src/cpu/operand.c:203-214 | a rotated eight-bit immediate and its carry are those of one-bit rotations |
| CpuModel.Operand2IsReference | src/cpu/operand.c:191-231 | for every instruction word, register file and carry, Operand2 and the shifter carry are what the architecture's encodings mean in one-bit steps |
| OperandLaws.ImmediateShiftLaw | src/cpu/operand.c:43-118 | a register shifted by an immediate, from the instruction word: bits 5 and 6 choose product, quotient, signed floor or rotation by a power of two, with the carry bit of each, and what an amount of 0 stands for |
| OperandLaws.RegisterShiftLaw | src/cpu/operand.c:121-189 | the same with the amount in the low byte of a register, for every amount 0..255 |
| OperandLaws.RotatedImmediateLaw | src/cpu/operand.c:203-214 | an eight-bit immediate rotated by twice bits 8 to 11, in quotients and remainders, with its carry |
| Alu.NZCVBits | src/cpu/alu.c:44-55 | setting the four flags changes those four bits of CPSR and no other |
| Alu.AdcMeetsArchitecture | src/cpu/alu.c:98-123 | result and carry of the 64-bit sum are AddWithCarry's; the overflow expression is too, except when the carry turns 0x7FFFFFFF over |
| Alu.SubMeetsArchitecture | src/cpu/alu.c:125-146 | result, borrow and overflow of the subtraction are those of adding the complement and one |
| Alu.SbcMeetsArchitecture | src/cpu/alu.c:148-174 | result and borrow of the 64-bit difference are AddWithCarry's; the overflow expression is too, except when the borrow turns 0x7FFFFFFF over |
| Alu.FlagsMeetArchitecture | src/cpu/alu.c:71-225 | N, Z and C of the eight operations are AddWithCarry's; V is exactly when carry or borrow did not turn 0x7FFFFFFF over; no other CPSR bit moves |
| Alu.HandleAdd | src/cpu/alu.c:71-96 | ADD has the architecture's effect on registers and CPSR |
| Alu.HandleAdc | src/cpu/alu.c:98-123 | ADC has it except for V in the one case |
| Alu.HandleSub | src/cpu/alu.c:125-146 | SUB has the architecture's effect |
| Alu.HandleSbc | src/cpu/alu.c:148-174 | SBC has it except for V in the one case |
| Alu.HandleRsb | src/cpu/alu.c:176-197 | RSB has the architecture's effect |
| Alu.HandleRsc | src/cpu/alu.c:199-225 | RSC has it except for V in the one case |
| Alu.HandleCmp | src/cpu/alu.c:305-319 | CMP sets the flags of a subtraction and nothing else |
| Alu.HandleCmn | src/cpu/alu.c:347-362 | CMN sets the flags of an addition and nothing else |
| ArithmeticLaws.ResultLaw | src/cpu/alu.c:71-362 | for each of the eight operations the destination takes the integer sum or difference of the decoded operands modulo 2^32; comparisons write no register, r15 as destination means nothing happens, and without S the status word stays |
| ArithmeticLaws.FlagsLaw | src/cpu/alu.c:71-362 | each operation's N, Z, C and V as integer facts: C when a sum passes 2^32 or a difference is not negative, V when the signed total does not fit, complemented exactly in the folded cases; the low 28 bits stay |
| Conditions.OppositesNegate | src/vm/vm.c:28-53 | codes c and c ^ 1 below AL are negations in every flag state; AL always holds and NV never |
| MachineLaws.ConditionLaw | src/vm/vm.c:28-53 | what each of the sixteen codes asks of bits 31 to 28 |
| Conditions.CompareDecides | src/vm/vm.c:28-53 | after comparing a with b, ten conditions decide equality and the unsigned and signed orders, signed overflow included |
| Conditions.CompareInstructionDecides | src/cpu/alu.c:305-319 | the same for a CMP instruction with any operand encoding |
| Multiword.LimbIsInstruction | src/cpu/alu.c:71-174 | one limb step is what the flag-setting instruction does |
| Multiword.MultiwordAdd | src/cpu/alu.c:71-123 | ADDS then ADCS on n limbs gives A + B modulo 2^(32n), with the carry flag as the bit that does not fit |
| Multiword.MultiwordSub | src/cpu/alu.c:125-174 | SUBS then SBCS gives A - B modulo 2^(32n), with the carry flag set iff A >= B |
| Multiword.RunIsChain | src/cpu/alu.c:98-174 | a run of flag-setting instructions over registers, none writing what a later one reads or writes, is the chain over limbs, and changes no other register |
| Multiword.RegistersAdd | src/cpu/alu.c:71-123 | ADDS then ADCS over such registers leave the sum in the destinations and the bit that does not fit in the carry flag |
| Multiword.RegistersSub | src/cpu/alu.c:125-174 | SUBS then SBCS over such registers leave the difference in the destinations and the carry flag set iff there is no borrow |
| KeyboardDevice.Keyboard.Push | src/hw/dev_keyboard.c:8-8 | a byte joins the end of the queue, and is refused iff 64 are pending |
| KeyboardDevice.Keyboard.Read32 | src/hw/dev_keyboard.c:10-10 | status says whether a byte is pending; data delivers and removes the oldest, or answers 0 |
| KeyboardDevice.Keyboard.Reset | src/hw/dev_keyboard.c:7-7 | a reset empties the queue and keeps base and presence |
| KeyboardDevice.Drive | src/hw/dev_keyboard.c:3-10 | driven through any trace, the ring accepts and delivers what a queue bounded at 64 does |
| KeyboardDevice.NothingLostOrReordered | src/hw/dev_keyboard.c:8-10 | over any trace, delivered bytes followed by pending ones are the accepted bytes in order |
| DeviceLaws.RespondLaw | src/hw/dev_keyboard.c:10-10 | offset 0 says whether a key waits, offset 4 delivers the oldest, all else reads 0 and changes nothing |
| DeviceLaws.CapacityLaw | src/hw/dev_keyboard.c:8-8 | of any keys pressed in a row the first 64 are kept, in order, and no others |
| DiskDevice.Disk.ReadSectors | src/hw/disk_manager.c:99-106 | a read of any number of sectors copies them to the front of the destination or, when the range leaves the image, copies nothing |
| DiskDevice.Disk.MmioWrite | src/hw/dev_disk.c:77-141 | the whole new controller state for any register write: LBA, count, and for READ with GO status and data |
| DeviceLaws.CommandLaw | src/hw/dev_disk.c:77-141 | the new controller state for a store at each offset, in numbers: a command with bits 0 and 7 set reads the chosen 512 bytes or leaves status 4 |
| DeviceLaws.RegisterLaw | src/hw/dev_disk.c:52-75 | what each controller offset reads as, the data window byte by byte |
| Memory.LoadStore | src/hw/mem.c:119-205 | a stored word reads back, and words apart from it are unaffected |
| Memory.WordLaw | src/hw/mem.c:146-205 | words are little-endian, byte by byte |
| Memory.RouteLaw | src/hw/mem.c:14-43 | exactly which addresses go to the clock, the keyboard, the UART, the disk and RAM |
| Memory.Bus.Read8 | src/hw/mem.c:65-73 | a byte read sees RAM only, and 0 outside it |
| Memory.Bus.Write8 | src/hw/mem.c:75-83 | a byte write changes that RAM byte only, and nothing outside RAM |
| Memory.Bus.Read32 | src/hw/mem.c:119-158 | a word read goes to the first window that owns it, then to RAM, then answers 0; only a keyboard read changes anything |
| Memory.Bus.Write32 | src/hw/mem.c:160-205 | a word write stores to RAM or commands the disk controller, whichever the address selects, with the whole controller after it, and changes nothing else |
| Addressing.AddressShiftIsSteps | src/include/ctx_helpers.h:42-61 | the address shifter agrees with one-bit steps except exactly for ASR #0 of a word that is not all sign bits and RRX with carry set |
| Addressing.HandleStr | src/cpu/memops.c:25-40 | STR stores the raw register at the effective address, in RAM or in the controller, and then moves the base, in every P, U, W form |
| Addressing.HandleLdr | src/cpu/memops.c:221-266 | LDR loads from RAM, disk controller or keyboard, or 0 from nowhere, aims the next PC for r15, and moves the base last, in every P, U, W form |
| AddressingLaws.AddressLaw | src/include/ctx_helpers.h:97-131 | in integers, for every word: bit 23 adds or subtracts, bit 24 says whether before the access, bits 24 and 21 whether the base takes it; the address used and all registers after LDR and STR |
| AddressingLaws.OffsetLaw | src/include/ctx_helpers.h:42-71 | the offset of the register forms as a product, quotient, signed floor or rotation |
| AddressingLaws.CopyWords | firmware/bios/bios.s:227-231 | n rounds of `ldr r5, [r2], #4` and `str r5, [r1], #4` through the handlers and the bus copy 4 * n ascending bytes, advance r1 and r2 by 4 * n and change nothing else but r5 |
| Addressing.StoreLoadIdentity | src/include/ctx_helpers.h:97-131 | for an address that routes to RAM, a moving store and then the reverse load is the identity on every register, for any immediate and even when the base is the register stored |
| BlockTransfer.HandleStm | src/cpu/memops.c:75-118 | STM stores the listed registers, r15 raw, one word after another wherever each address leads, and leaves the base its mode says; on plain RAM it is the reference |
| BlockTransfer.PlainStores | src/cpu/memops.c:104-110 | word by word through the memory map, a store of a list to plain RAM is the list in RAM and leaves the controller alone |
| BlockTransfer.HandleLdm | src/cpu/memops.c:539-576 | LDM on plain RAM loads the listed registers, sends r15 to the next PC word-aligned, and moves the base last |
| TransferLaws.ListLaw | src/cpu/memops.c:104-110 | the list holds each register whose bit is set, once, ascending |
| TransferLaws.FirstAddressLaw | src/cpu/memops.c:83-102 | the first address of the four modes is b, b + 4, b - 4 * (n - 1), b - 4 * n |
| TransferLaws.InRamLaw | src/hw/mem.c:119-205 | the transfers described are those whose every word routes to RAM |
| TransferLaws.StmLaw | src/cpu/memops.c:75-118 | STM stores the list at ascending words and changes no other byte; no register changes with bit 21 clear, and only the base, to b +- 4 * n, with it set |
| TransferLaws.LdmLaw | src/cpu/memops.c:539-576 | with bit 21 clear each listed register but r15, base included, takes its word and all others stay; with it set the base ends at b +- 4 * n, listed or not |
| TransferLaws.LoadedNpcLaw | src/cpu/memops.c:559-568 | with bit 15 set the next PC is the last word without its two low bits, and else it is left alone |
| StackDiscipline.StoreListWrites | src/cpu/memops.c:104-110 | STM writes exactly 4 * count bytes, ascending registers at ascending words |
| StackDiscipline.LoadRestores | src/cpu/memops.c:559-568 | loading a list from memory that holds it restores exactly the listed registers except r15 |
| StackDiscipline.StmLdmIdentity | src/cpu/memops.c:75-576 | in all four modes and for any list, base and r15 included, STM with write-back then LDM with both direction bits flipped restores every register and returns to the stored r15 |
| StackDiscipline.PushEffect | src/cpu/memops.c:75-118 | STMDB with write-back lowers the base by 4 * count, saves the list there, and changes no other byte or register |
| StackDiscipline.PopEffect | src/cpu/memops.c:539-576 | LDMIA with write-back from a saved frame restores the list and the base, and changes no other register and no byte |
| StackDiscipline.StackKept | src/cpu/memops.c:75-576 | any nesting and sequence of frames, to any depth, restores base and saved registers, leaves live bytes alone and changes nothing outside scratch and the stack extent reached |
| StackDiscipline.RecursionFits | src/cpu/memops.c:75-118 | recursion n deep with one frame each is well behaved whenever n frames fit below the base in plain RAM, and reaches down exactly n frames |
| Machine.SvcCpsrBits | src/cpu/system.c:68-73 | entering SVC sets mode 10011, clears T and the IT bits, sets I, and keeps every other bit |
| Machine.HandleSvc | src/cpu/system.c:59-77 | SVC saves CPSR and the return address and vectors to 8 |
| Machine.HandleMov | src/cpu/logic.c:213-240 | MOV writes its operand, steers the next PC for r15, and with S set restores CPSR from SPSR |
| MachineLaws.MovLaw | src/cpu/logic.c:213-240 | MOV from the bits of the word: when it runs, the operand to its destination with N, Z, C and no other bit, or for r15 the next PC without bit 0 and SPSR to CPSR |
| Machine.HandleBkpt | src/cpu/system.c:187-203 | BKPT stays on its address and latches the CPU's halt |
| MachineLaws.BreakpointStep | src/cpu/system.c:187-203 | a step over a breakpoint halts machine and CPU with the reason, counts a cycle, and changes no register, status word or RAM |
| Machine.ReturnEffect | src/cpu/logic.c:59-72 | MOVS pc, lr runs in every flag state, and returns to r14 without bit 0 and with CPSR from SPSR |
| Machine.SvcRoundTrip | src/cpu/logic.c:213-240 | SVC, any run that keeps r14 and SPSR, then MOVS pc, lr restores CPSR, and resumes after the SVC exactly when its address is even |
| Machine.Runner.CpuExecute | src/cpu/execute.c:349-409 | default next PC, handler, cycle count, and a commit that a requested halt skips |
| Machine.Runner.Step | src/vm/vm.c:306-326 | one guarded step: nothing when halted, a halt when the fetch leaves RAM, otherwise one execution |
| MachineLaws.FetchLaw | src/vm/vm.c:126-146 | a fetch is the little-endian word at the address exactly when its four bytes are RAM |
| MachineLaws.StepLaw | src/cpu/execute.c:349-409 | the whole step in each case: halted, no fetch, no handler, handler that asks to halt, handler that is committed |
| Machine.Runner.Run | src/vm/vm.c:279-303 | running m > 0 instructions is m guarded steps; running without limit is as many as it takes to halt |
| Machine.IterateSplit | src/vm/vm.c:279-326 | m steps and then n steps are m + n steps |
| Machine.BkptSticks | src/vm/vm.c:182-185 | stopped on a breakpoint, no interleaving of clearing the halt and stepping changes r0 to r15, CPSR, SPSR or RAM |
| Machine.LatchedAct | src/cpu/execute.c:381-408 | with the CPU latched, an action keeps r15 exactly when it is a clear, or a step that is halted, cannot fetch, or runs a handler that leaves r15 alone; a word without a handler moves r15 on by four |
| Machine.LatchedNeverAdvances | src/vm/vm.c:182-185 | over any interleaving of clears and steps from a latched CPU, r15 never moves exactly when every step is such a one |
| Machine.UndisturbedKeeps | src/cpu/execute.c:349-409 | a run whose every step stays live and keeps r14 and SPSR ends live with both as they were |
| Emulator.SvcSelected | src/cpu/execute.c:219-219 | with the shipped table, every word with bits 27 to 24 set decodes to SVC |
| Emulator.SvcActs | src/cpu/execute.c:322-334 | such a word runs the SVC handler exactly when its condition holds, and is else a no-op |
| Emulator.BkptSelected | src/cpu/execute.c:85-85 | with the shipped table, every BKPT word decodes to BKPT, whatever its condition field |
| Emulator.MovSelected | src/cpu/execute.c:116-126 | MOVS pc, lr decodes to MOV, past the four shift rows of higher priority |
| SelectionLaws.ArithmeticSelected | src/cpu/execute.c:153-160 | every word with an arithmetic operation in bits 24 to 21, outside the space of multiplies, decodes to that operation |
| SelectionLaws.ArithmeticActs | src/cpu/execute.c:322-334 | such a word runs its handler exactly when its condition holds, and is else a no-op |
| SelectionLaws.ShippedArithmetic | src/cpu/execute.c:349-409 | a step of the shipped emulator over such a word: the instruction's effect, or nothing, and r15 on by four |
| SelectionLaws.MovWordSelected | src/cpu/execute.c:116-126 | every MOV word outside the space of multiplies, unless its condition is NV, decodes to a row of the MOV handler |
| SelectionLaws.BlockSelected | src/cpu/execute.c:97-102 | every block transfer decodes to LDM or STM by bit 20 |
| SelectionLaws.BranchSelected | src/cpu/execute.c:94-204 | every branch word decodes to BLX with condition field 1111, and else to B or BL by bit 24 |
| SelectionLaws.BeforeSelected | src/cpu/execute.c:177-199 | which row each pre-indexed word load or store with an immediate decodes to, special rows included |
| SelectionLaws.AfterSelected | src/cpu/execute.c:182-200 | the same for post-indexed ones, and that a post-indexed store with bit 21 set decodes to nothing |
| Emulator.ShippedSane | src/cpu/execute.c:306-346 | the shipped decoder keeps the machine's register file and latch if the handlers of the other rows do |
| Emulator.SvcReturns | src/cpu/system.c:59-77 | the SVC round trip for the shipped decoder and any SVC word whose condition holds, whatever the other handlers do in between |
| Emulator.SvcHandlerReturns | src/cpu/system.c:59-77 | the same from a condition on each step of the SVC's handler: none halts or changes r14 or SPSR |
| Emulator.SvcThenReturn | src/cpu/logic.c:59-72 | with the return at the vector itself, two steps bring the machine back to the next instruction with the old CPSR |
| Emulator.BkptHolds | src/vm/vm.c:182-185 | with the shipped decoder, no interleaving of clearing the halt and stepping gets past a BKPT or changes the guest |
| Emulator.DecodedIff | src/cpu/execute.c:381-390 | with the shipped table a word has a handler exactly when some row matches it |
| Emulator.LatchedStep | src/cpu/execute.c:381-408 | with the shipped table, a latched CPU stepped after a clear halts again, and keeps r15 exactly when some row matches the word and its handler leaves r15 alone |
| Emulator.LatchedSkipsCdp | src/cpu/execute.c:384-393 | at a coprocessor data operation, which no row matches, the latched CPU moves on by four |
| Emulator.CpsNeverRuns | src/cpu/execute.c:87-87 | for every word and CPSR the CPS handler does not run; a word that matches the CPS row is a no-op exactly when it is not a BKPT word, and is else a breakpoint |
| Emulator.ArithmeticStep | src/cpu/execute.c:406-407 | a whole step over an arithmetic instruction is its effect and r15 on by four, and nothing else when r15 is the destination |
| Emulator.AdcsMissesOverflow | src/cpu/alu.c:98-123 | ADCS r2, r0, r1 on 0 and 0x7FFFFFFF with carry in overflows and leaves V clear |
| SectorRead.CopyWindow | firmware/bios/bios.s:226-232 | the 128-word loop copies the data window to the destination and changes no other byte below the registers; with no disk in, the window keeps its bytes and the status word too, unless the copy passes over it |
| SectorRead.ReadSector | firmware/bios/bios.s:212-237 | the sector primitive, for a disk image or for the memory behind the registers: how it ends, what it delivers, that it asks a disk for that sector once, and what is there to read afterwards |
| SectorRead.StuckIff | firmware/bios/bios.s:220-225 | with no disk in, a read never returns exactly when the status address routes nowhere or to a RAM word with error and data bits clear |
| BootSpec.SearchMeaning | firmware/bios/bios.s:109-161 | the search finds the least matching entry, is missing iff there is none among readable ones, and stops at the first sector it cannot read |
| BootLoader.NameMatches | firmware/boot/boot.s:114-131 | the word-by-word test holds iff the entry starts with the name and its NUL, for both stages |
| BootLoader.ScanDirectory | firmware/bios/bios.s:119-161 | the nested loops compute the search across sector boundaries, terminate, and read no directory sector past the one they need |
| BootSpec.SectorCountIsCeiling | firmware/bios/bios.s:168-170 | the load loop's count is ceil(length / 512) exactly for lengths up to 0xFFFFFE00 |
| BootSpec.NoDiskLoad | firmware/bios/bios.s:175-186 | with no disk in, a load runs through until it has passed the register addresses, and then answers as the window's own word says |
| BootSpec.NoDiskOutcome | firmware/bios/bios.s:86-242 | with no disk in, exactly when a whole stage hangs, and exactly when it reports a disk error |
| BootLoader.LoadFile | firmware/bios/bios.s:175-186 | the load loop succeeds iff every sector is delivered; memory then holds them in order, and the sectors asked for are those up to the first bad one |
| BootSpec.FileBytesContiguous | firmware/bios/bios.s:175-186 | what is loaded is the one run of image bytes from 512 * start, when the LBAs do not wrap |
| BootLoader.ReadHeader | firmware/bios/bios.s:86-117 | the header checks in their order, each with its outcome, with or without a disk |
| BootLoader.BootStage | firmware/bios/bios.s:86-205 | a whole stage ends as what it reads from says, with or without a disk, having asked for exactly the sectors it needs, with the file in memory when it jumps |
| BootLaws.RefusalLaw | firmware/bios/bios.s:86-117 | on an image: too short is a disk error; a wrong word at byte 0 or 8, or 0 at byte 16, is a format error; then 0 at byte 20 is not found; then other than 64 at byte 24 is a format error |
| BootLaws.EntryLaw | firmware/bios/bios.s:119-186 | with a good header, the first entry (sector d + i / 8, byte 64 * (i % 8)) that is out of reach or has the name decides: disk error, not found when its word at 36 is 0, a jump when the sectors from its word at 32 are all inside |
| BootLaws.MissingLaw | firmware/bios/bios.s:119-161 | n entries in reach and none with the name: not found |
| BootLaws.JumpLaw | firmware/bios/bios.s:86-205 | a stage jumps, to 0x10000 or 0x20000, exactly when the header words are good and some entry is the first with the name, not empty, and wholly inside the image |
| BootLaws.BootFromImage | firmware/bios/bios.s:86-205 | the whole stage on such an image: the jump, the sectors asked for in order, and in memory the image bytes from 512 * start on |
| BootLaws.ShortFileReads | firmware/bios/bios.s:175-186 | a file with a missing sector is read up to that sector and no further |
| BootLaws.StoppedReads | firmware/bios/bios.s:119-161 | an empty file or an unreadable directory sector ends the reads there |
| BootLaws.MissingReads | firmware/bios/bios.s:119-161 | a search without success reads each directory sector once |
| BootSpec.JumpIff | firmware/bios/bios.s:86-205 | a stage jumps exactly when the header is good, the first entry with the name is reachable and not empty, and every sector of the file is delivered |
| EditorSpec.KeysMirror | firmware/monitor/monitor.s:85-159 | over every key sequence the line stays within 63 characters, the row on the screen, and the prompt row shows "> " and the line cell by cell |
| EditorSpec.LineIsTyped | firmware/monitor/monitor.s:104-144 | the line is the fold of accepted keys and backspaces since the prompt |
| EditorSpec.EnterDispatches | firmware/monitor/monitor.s:146-204 | Enter runs command c iff the typed line is c's word; an empty line only gives a new prompt |
| MonitorLaws.KeyLaw | firmware/monitor/monitor.s:99-144 | code 8 takes the last character off and blanks its cell, codes 32 to 126 add a character and its cell up to 63, all other codes but Enter do nothing; no other cell changes |
| MonitorLaws.EnterLaw | firmware/monitor/monitor.s:146-204 | code 13 on "help", "about", "clear", "time", "halt" runs that command on the next row, on another line says so, on an empty line gives a prompt |
| MonitorLaws.HelpLaw | firmware/monitor/monitor.s:206-243 | five rows of text in order, going on at the top after the last row, then the prompt |
| MonitorLaws.AboutLaw | firmware/monitor/monitor.s:195-253 | the version or "Unknown command" on one row, the prompt on the next, and no other cell changed |
| MonitorLaws.ClearLaw | firmware/monitor/monitor.s:255-268 | blanks in every cell, the banner on the first row and the prompt on the second |
| MonitorLaws.TimeLaw | firmware/monitor/monitor.s:270-318 | hours, minutes and seconds in two digits each with colons between, then the prompt |
| MonitorLaws.HaltLaw | firmware/monitor/monitor.s:320-333 | its text, and no prompt |
| MonitorProgram.Monitor.Streq | firmware/monitor/monitor.s:335-349 | 0 iff the two NUL-terminated strings are equal |
| MonitorProgram.Monitor.PrintStringAt | firmware/monitor/monitor.s:357-369 | writes the text up to its NUL into screen cells and nothing else |
| MonitorProgram.Monitor.PrintTwoDigits | firmware/monitor/monitor.s:298-313 | repeated subtraction prints quotient and remainder by ten |
| MonitorProgram.Monitor.ClearScreen | firmware/monitor/monitor.s:375-392 | every cell becomes a blank in the default attribute |
| MonitorProgram.Monitor.NormalizeRow | firmware/monitor/monitor.s:399-409 | a row base past the last row becomes the first row |
| MonitorProgram.Monitor.DispatchCommand | firmware/monitor/monitor.s:161-326 | registers, buffer and screen after dispatch are those of the named command |
| MonitorProgram.Monitor.HandleKey | firmware/monitor/monitor.s:99-160 | one key takes registers, buffer and screen where the abstract editor goes, and writes nowhere else |
| MonitorProgram.Monitor.Session | firmware/monitor/monitor.s:99-204 | the same for a whole sequence of keys |
| MonitorProgram.Monitor.Start | firmware/monitor/monitor.s:52-97 | start-up shows the banner on row 2 and the prompt on row 3 |
| MonitorLaws.StartLaw | firmware/monitor/monitor.s:52-97 | the banner on row 2 and "> " on row 3, cell by cell, and no other cell changed |
| MonitorLaws.ScreenLaw | firmware/monitor/monitor.s:32-46 | the screen is memory from 0x0A000000, with the line, the prompt and the three registers where they should be |
| Console.PollOnce | firmware/monitor/monitor.s:99-105 | one poll takes the oldest pending key through the bus, and nothing when none is pending |
| Console.PollKeys | firmware/monitor/monitor.s:99-204 | polling feeds every pending key, oldest first, to the editor until none is left or `halt` ran |
| SessionVariables.MapOfSwapRemove | vm/arm7-run/src/session.c:225-231 | moving the last slot into the hole removes exactly one key and keeps the rest distinct |
| SessionVariables.Session.Find | vm/arm7-run/src/session.c:37-44 | finds the slot of the key, or says it is not in the map |
| SessionVariables.Session.Reserve | vm/arm7-run/src/session.c:46-62 | grows to the wanted capacity or fails, and keeps every used slot |
| SessionVariables.Session.Get | vm/arm7-run/src/session.c:180-185 | answers the map's value, or nothing |
| SessionVariables.Session.Set | vm/arm7-run/src/session.c:187-214 | updates exactly one key, or leaves the map as it was, and says exactly when it fails |
| SessionVariables.Session.Unset | vm/arm7-run/src/session.c:216-233 | removes exactly the key, and fails iff it is not there |
| SessionVariables.Serve | vm/arm7-run/src/session.c:180-233 | any sequence of requests is answered as a finite map would, and a set fails only without a key or when an allocation it needs fails |
| DeviceBus.OverlapTest | src/hw/hw_bus.c:24-26 | for regions that do not wrap, no overlap means no shared address, and overlap of non-empty regions means one |
| DeviceBus.TestTrustedIffPlain | src/hw/hw_bus.c:24-36 | the test never passes an address-sharing region (plain, or the same one again) exactly when the region does not wrap |
| DeviceBus.HwBus.Attach | src/hw/hw_bus.c:28-37 | attaches iff there is room and nothing overlaps; a refused device changes nothing |
| DeviceLaws.AdmitLaw | src/hw/hw_bus.c:24-36 | among regions that do not wrap, a device is attached exactly when fewer than 32 are and its region ends before or starts after each of theirs |
| DeviceBus.HwBus.AttachAll | src/hw/hw_bus.c:28-37 | a sequence of attempts leaves the fold of the single ones |
| DeviceBus.HwBus.Find | src/hw/hw_bus.c:39-48 | the first attached device that owns the address, with the offset into it |
| DeviceBus.OneOwner | src/hw/hw_bus.c:24-48 | after any attempts with regions that do not wrap, an address has at most one owner, and lookup answers it |
| DeviceBus.LookupOrderFree | src/hw/hw_bus.c:39-48 | lookup depends on which devices are attached and not on their order |
| DeviceBus.AttachOrderFree | src/hw/hw_bus.c:24-48 | up to 32 regions that do not wrap or overlap, attached in any order, are all attached and are looked up alike |

## Left out

- BootLoader.BootStage: needs RAM to cover the two sector buffers (up to 0x30600); it says what is in memory only when the file ends below the first device window, and which file sectors a disk was asked for only when it ends below the disk window, because beyond them the copy writes into device registers.
- DiskDevice.Disk.ReadSectors: sector numbers and counts are 32 bits wide, as its only caller passes them.
- BlockTransfer.HandleLdm: registers and memory are stated when every word is plain RAM; a list that runs into the clock or keyboard window loads what they answer.
- Addressing.HandleLdr: a load from the clock or the UART gives an arbitrary word, because it comes from the host.
- Memory.Bus.Read32: clock and UART reads return an arbitrary word, because they come from the host.
- Machine.Runner.Run: running without a limit is covered only for machines that halt, because otherwise the call does not return.
- Emulator.SvcReturns: the handlers of the other rows are any functions that keep sixteen registers and never clear the halt latch.
- EditorSpec.LineIsTyped: between two Enter keys; across an Enter the line starts empty again, which `EnterDispatches` states.
- The monitor's texts and command words are byte sequences, not addresses in the loaded image; the clock registers are parameters.
- Firmware banners and success and error messages on the screen: formatting.
- Whether loaded code overwrites the code that is running or the buffers it was found through: code is not bytes in this model.
- Logical, move and test data-processing handlers other than MOV, multiplies, bit-field, reversal and saturation instructions, MRS, MSR, SETEND: they would add one-call members only.
- Byte, halfword and doubleword loads and stores, literal loads, register-offset handlers, SWP, and the separate POP handlers: the same addressing as the modelled ones, or none.
- `media.c`, coprocessor transfers, barriers, WFI: stubs or not reachable from the decoder table.
- RTC, UART and NVRAM devices, disk image files and disk writes, MBR, GPT and ext printing: host input and output, or formatting.
- The device bus's read, write and tick callbacks: dispatch through function pointers.
- The CLI, the Windows front ends, the disassembler, debug flags and logging: user interface.
- Memory allocation succeeds or fails by parameter; strings are sequences of characters.
