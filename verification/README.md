# LC-3 simulator in Dafny

A model of `main.c`, a small simulator of the LC-3, a 16-bit teaching
computer. The model covers:

- the register file `reg[R_COUNT]`: R0..R7, PC and COND;
- 64K words of memory, including the memory-mapped keyboard registers
  KBSR (0xFE00) and KBDR (0xFE02);
- `sign_extend`, `update_flags` and `swap16`;
- `mem_read` and `mem_write`;
- the fetch/decode/execute loop: every opcode and every TRAP routine
  (GETC, OUT, PUTS, IN, PUTSP, HALT), and the `abort()` on RTI and the
  reserved opcode.

The project has four modules:

- `Bits` (`bits.dfy`): the bit-level helpers, on `bv16` words. These wrap
  modulo 2^16 as `uint16_t` does.
- `Semantics` (`semantics.dfy`): the machine as a pure state-transition
  system over a `State` value (registers, memory, console input and
  console output). The instruction results are written the way the C code
  computes them, including its selection of operands by multiplying with 0
  or 1 (`!imm_flag * reg[r2]`, `pc_offset * !!flag`, `reg[R_PC] * flag`).
- `Simulator` (`machine.dfy`): the class `Machine`. It holds the two global
  arrays as `array<bv16>` fields and updates them in place, as the C code
  does. Each method is proved to have exactly the effect the matching
  `Semantics` function gives. The console output is a ghost field.
- `Properties` (`properties.dfy`): what each instruction means in plain
  terms, stated and proved against `Semantics`. This covers:
  - frames: which registers and cells an instruction changes;
  - the keyboard poll;
  - the TRAP routines;
  - which words halt or fault;
  - the condition-code invariant;
  - how the main loop stops.

The environment becomes parameters:

- Whether a key is waiting (`check_key`, a `select` on stdin) is an oracle
  `ready`. Within one cycle, the keyboard polls are numbered 0 (the fetch),
  1 and 2 (the reads of LD/LDI/LDR/STI). `Run` gives cycle `k` the oracle
  `ready(k)`.
- The bytes `getc`/`getchar` will return are the sequence `input`. Once it
  is exhausted they return EOF, which the code stores as the word 0xFFFF.
- Everything `putc`, `puts` and `printf` write is appended to `output`.

Points of `main.c` that the model keeps exactly as written:

- PUTSP stops at the first cell that is entirely zero (`while (*c)`), so a
  cell whose low byte is zero but whose high byte is not still prints.
- The opcodes that `abort()` are RTI (8) and the reserved opcode (13); every
  other opcode, JSR (4) included, is executed.
- COND starts at 0 (the globals are zero-initialised). So "COND holds
  exactly one flag" is an invariant from the first flag-setting
  instruction on (`Properties.NextKeepsCondValid`), not a property of the
  initial state. Until then every BR falls through, even an unconditional
  BRnzp (`Properties.BranchWithClearCondFallsThrough`).
- JSRR with base register R7 writes the return address into R7 before it
  reads R7. It therefore continues with the next instruction. This is
  modelled as written (`Properties.JsrrThroughR7Continues`).

## Model

| member | source | states |
|---|---|---|
| Bits.LogicalNot | main.c:233 | C's `!v` on a word is 1 exactly when `v` is 0, and 0 otherwise |
| Bits.MulByFlag | main.c:279 | multiplying a word by a 0/1 flag keeps it (flag 1) or zeroes it (flag 0) |
| Bits.SignExtend | main.c:81-86 | sign extension keeps the low `bitCount` bits of the field unchanged |
| Bits.SignExtendHighBits | main.c:81-86 | every bit from `bitCount` to 15 equals the field's sign bit `bitCount - 1` |
| Bits.SignExtendValue | main.c:81-86 | the result is the field minus 2^bitCount when its sign bit is set, and the field itself otherwise (mod 2^16) |
| Bits.SignExtendExamples | main.c:81-86 | a 5-bit 0x1F extends to 0xFFFF (-1) and 0x01 stays 0x0001 |
| Bits.CondFor | main.c:88-92 | COND after a write holds exactly one of POS/ZRO/NEG: ZRO iff the value is 0, NEG iff bit 15 is set, POS otherwise |
| Bits.CondForSign | main.c:88-92 | NEG, ZRO and POS classify the value read as a two's-complement number (<0, =0, >0) |
| Bits.Swap16 | main.c:94-97 | the high byte of the result is the low byte of the input and vice versa |
| Bits.Swap16Involution | main.c:94-97 | swapping twice gives back the word |
| Bits.LowByte | main.c:341 | `(char)v` is the low eight bits of the word |
| Semantics.Initial | main.c:201-202 | after loading, PC is 0x3000, every other register is 0, memory is the loaded image and nothing has been printed |
| Semantics.Addr | main.c:75-76 | each 16-bit address names its own cell, the cell with the same number, of the 65536-cell memory (index below MEMORY_SIZE) |
| Semantics.Opcode | main.c:220 | the opcode is the top four bits of the word, a value below 16 |
| Semantics.Imm5 | main.c:230 | imm5 keeps bits 4..0 of the word and repeats bit 4 in bits 15..4 |
| Semantics.Offset6 | main.c:300 | offset6 keeps bits 5..0 and repeats bit 5 in bits 15..5 |
| Semantics.PcOffset9 | main.c:264 | PCoffset9 keeps bits 8..0 and repeats bit 8 in bits 15..8 |
| Semantics.PcOffset11 | main.c:277 | PCoffset11 keeps bits 10..0 and repeats bit 10 in bits 15..10 |
| Semantics.OperateResult | main.c:233-258 | the ADD/AND/NOT value as the C code computes it; it has no contract of its own, and its meaning is `Properties.OperateResultMeaning` |
| Semantics.BranchTarget | main.c:263-265 | the BR target is either PC or PC + PCoffset9; which one is `Properties.BranchTargetMeaning` |
| Semantics.SubroutineTarget | main.c:276-279 | the JSR target is either the base register or PC + PCoffset11; which one is `Properties.SubroutineTargetMeaning` |
| Semantics.PcRelative | main.c:286 | the address PC + PCoffset9 used by LD, LDI, LEA, ST and STI; its uses are stated by `Properties.LoadReadsTarget` and `Properties.StoreChangesOneCell` |
| Semantics.BaseRelative | main.c:301 | the address base + offset6 used by LDR and STR; its uses are stated by the same lemmas |
| Semantics.Getc | main.c:337 | `getc` yields EOF (0xFFFF) exactly when the input is empty; otherwise the first input byte, zero-extended, with the rest of the input after that byte |
| Semantics.PutsBytes | main.c:346-348 | PUTS prints at most one byte per cell between the start and the end of memory |
| Semantics.PackedChars | main.c:362-366 | PUTSP prints one or two bytes per cell, the first being the low byte |
| Semantics.PutspBytes | main.c:359-367 | PUTSP prints at most two bytes per cell between the start and the end of memory |
| Semantics.Reg9 | main.c:226 | the DR/SR field (bits 11..9) names one of R0..R7 |
| Semantics.Reg6 | main.c:227 | the SR1/BaseR field (bits 8..6) names one of R0..R7 |
| Semantics.Reg0 | main.c:231 | the SR2 field (bits 2..0) names one of R0..R7 |
| Semantics.SetReg | main.c:77 | writing a register keeps the state well-formed (ten registers, 65536 cells) |
| Semantics.UpdateFlags | main.c:88-92 | `update_flags` sets COND from register `r`; the state stays well-formed |
| Semantics.Write | main.c:126-129 | `mem_write` as a state update; the state stays well-formed |
| Semantics.Read | main.c:143-158 | `mem_read` with the keyboard poll; the state stays well-formed |
| Semantics.Trap | main.c:333-377 | the six TRAP routines and the no-op for other vectors; the state stays well-formed |
| Semantics.Operate | main.c:224-260 | ADD/AND/NOT as a state update; the state stays well-formed |
| Semantics.Control | main.c:262-281 | BR/JMP/JSR/JSRR as a state update; the state stays well-formed |
| Semantics.LoadValue | main.c:283-310 | the reads of LD/LDI/LDR and the address LEA computes; the state stays well-formed |
| Semantics.Load | main.c:283-310 | LD/LDI/LDR/LEA as a state update; the state stays well-formed |
| Semantics.Store | main.c:312-331 | ST/STI/STR as a state update; the state stays well-formed |
| Semantics.Execute | main.c:222-384 | the opcode switch, with Fault for RTI and RES; the state stays well-formed |
| Semantics.Fetch | main.c:219-220 | the fetch with post-increment of PC; the state stays well-formed |
| Semantics.Next | main.c:206-385 | one cycle of the loop; the state stays well-formed |
| Semantics.RunFrom | main.c:205-206 | the loop cut off after `fuel` cycles; the state stays well-formed |
| Semantics.RunFromCycle | main.c:205-206 | a run with fuel left is one cycle followed by the rest of the run, unless that cycle halts or faults |
| Simulator.Machine.constructor | main.c:201-202 | the new machine is `Semantics.Initial` of the loaded image and console input |
| Simulator.Machine.GetChar | main.c:337 | `getc` returns the next input byte and consumes it, or EOF (0xFFFF) on empty input |
| Simulator.Machine.UpdateFlags | main.c:88-92 | the arrays afterwards are exactly `Semantics.UpdateFlags` of the arrays before |
| Simulator.Machine.MemWrite | main.c:126-129 | the new machine state is exactly `Semantics.Write` of the old one |
| Simulator.Machine.MemRead | main.c:143-158 | the returned word and the new state are exactly `Semantics.Read` of the old state |
| Simulator.Machine.Puts | main.c:345-350 | the loop collects exactly `PutsBytes` of memory at R0 |
| Simulator.Machine.Putsp | main.c:358-369 | the loop collects exactly `PutspBytes` of memory at R0 |
| Simulator.Machine.ExecuteOperate | main.c:224-260 | in-place ADD/AND/NOT equals `Semantics.Operate` |
| Simulator.Machine.ExecuteControl | main.c:262-281 | in-place BR/JMP/JSR equals `Semantics.Control` |
| Simulator.Machine.LoadValue | main.c:283-310 | the loaded value and the state after the reads equal `Semantics.LoadValue` |
| Simulator.Machine.ExecuteLoad | main.c:283-310 | in-place LD/LDI/LDR/LEA equals `Semantics.Load` |
| Simulator.Machine.ExecuteStore | main.c:312-331 | in-place ST/STI/STR equals `Semantics.Store` |
| Simulator.Machine.ExecuteTrap | main.c:333-377 | the outcome and new state equal `Semantics.Trap` |
| Simulator.Machine.Fetch | main.c:219 | the fetched word and the new state equal `Semantics.Fetch` |
| Simulator.Machine.Step | main.c:219-384 | the outcome and new state of one cycle equal `Semantics.Next` |
| Simulator.Machine.Run | main.c:205-206 | the loop's outcome and final state equal `Semantics.RunFrom` with the same fuel |
| Properties.WriteChangesOneCell | main.c:126-129 | a write stores the value in the addressed cell; every other cell, every register and the console are unchanged |
| Properties.ReadAfterWrite | main.c:126-129 | away from KBSR, a read returns the value just written |
| Properties.ReadPlainAddress | main.c:143-158 | reading any address but KBSR changes nothing and returns the cell |
| Properties.ReadKeyboardStatus | main.c:145-157 | reading KBSR with a key waiting: the KBSR cell gets 0x8000 and KBDR the next byte (EOF when none), which is consumed, and the read returns 0x8000. With no key waiting: the KBSR cell gets 0, the read returns 0, and the input is kept. No other cell or register changes |
| Properties.IdlePollIsIdempotent | main.c:145-157 | polling an idle keyboard twice equals polling it once, and both read 0 |
| Properties.FetchReadsAtPc | main.c:219 | the fetch returns the word at the old PC and leaves PC one past it (0xFFFF wraps to 0); nothing else changes |
| Properties.OperateResultMeaning | main.c:224-260 | ADD adds SR1 and the imm5 when bit 5 is set, SR2 otherwise; AND likewise with `&`; NOT complements SR1 |
| Properties.AddImmediateExample | main.c:233 | `ADD R1, R1, #-1` decrements, wrapping 0 to 0xFFFF |
| Properties.OperateChangesDestinationAndCond | main.c:224-260 | ADD/AND/NOT write DR and set COND from it; nothing else changes |
| Properties.BranchTargetMeaning | main.c:262-265 | BR adds PCoffset9 exactly when one of the tested n/z/p flags is set in COND |
| Properties.SubroutineTargetMeaning | main.c:274-279 | the JSR target is PC + PCoffset11 when bit 11 is set, the base register otherwise |
| Properties.BranchAndJumpChangePcOnly | main.c:262-272 | BR and JMP change PC only: the branch target, or the base register |
| Properties.BranchWithClearCondFallsThrough | main.c:262-267 | with COND still 0, as after start-up, a BR of any condition changes nothing: PC stays at the next instruction |
| Properties.SubroutineCallLinks | main.c:274-279 | JSR/JSRR put the incremented PC in R7 and change nothing but R7 and PC |
| Properties.SubroutineCallTarget | main.c:274-279 | JSR jumps PC-relative. JSRR jumps to the base register as read after R7 was written |
| Properties.SubroutineCallReadsBase | main.c:275-279 | the JSR/JSRR target is computed from the base register after the link into R7 |
| Properties.JsrrThroughR7Continues | main.c:275-279 | JSRR through R7 leaves PC at the next instruction and R7 holding that address |
| Properties.LoadReadsTarget | main.c:283-310 | LD and LDR load the cell at PC + offset9 or base + offset6 without changing the state (away from KBSR). LEA loads the address itself and touches no memory |
| Properties.LdiLoadsIndirect | main.c:290-295 | LDI loads the cell named by the address word at PC + offset9 (away from KBSR) |
| Properties.LoadSetsDestinationAndCond | main.c:283-310 | loads write DR and set COND from the loaded value; the other registers and the output stay |
| Properties.IndirectImage | main.c:290-295 | the example image holds 200 at address 100 and 42 at address 200 |
| Properties.LdiExample | main.c:290-295 | `LDI R0` with PC 100 over that image loads 42 into R0 and sets COND to POS |
| Properties.StoreChangesOneCell | main.c:312-331 | ST/STR/STI store SR into exactly the target cell; registers and the console stay |
| Properties.ConsoleReadTraps | main.c:336-356 | GETC and IN put the next input byte (or EOF) in R0 and consume it. COND is not updated. IN prints its prompt and echoes the low byte |
| Properties.ConsoleWriteTraps | main.c:340-375 | OUT, PUTS, PUTSP and HALT only append to the output: the low byte of R0, the strings, or "HALT\n". Exactly HALT stops |
| Properties.UnknownTrapIsNoOp | main.c:334-376 | a vector with no case leaves the machine unchanged and running |
| Properties.TrapKeepsMachine | main.c:333-377 | no TRAP changes memory or any register but R0, and none faults |
| Properties.GreetingImage | main.c:345-350 | the example image holds "Hi" and a terminating zero at 0x4000 |
| Properties.PutsExample | main.c:345-350 | PUTS at 0x4000 over that image prints "Hi" |
| Properties.PutsBytesSpec | main.c:346-348 | PUTS prints the low byte of every cell up to the first zero cell (or the end of memory) and no more |
| Properties.PackedCharsMeaning | main.c:362-366 | for one cell PUTSP prints the low byte, then the high byte only when it is nonzero |
| Properties.ConcatPacked | main.c:358-369 | the packed characters of `n` consecutive cells: between `n` and `2n` bytes |
| Properties.PutspBytesSpec | main.c:358-369 | PUTSP prints exactly the packed characters of the cells PUTS walks: from the start up to the first zero cell or the end of memory |
| Properties.PutspLength | main.c:358-369 | PUTSP prints at least as many and at most twice as many bytes as PUTS for the same string |
| Properties.PutspOfUnpackedString | main.c:358-369 | on a string whose own cells have zero high bytes, PUTSP prints exactly what PUTS prints, whatever the rest of memory holds |
| Properties.ExecuteOutcome | main.c:222-384 | executing faults exactly on RTI and RES (changing nothing), halts exactly on TRAP HALT, and runs on otherwise |
| Properties.NextOutcome | main.c:206-385 | a cycle halts exactly when the fetched word is TRAP x25 and faults exactly when it is RTI or RES |
| Properties.NextKeepsCondValid | main.c:88-92 | if COND holds exactly one flag before a cycle, it does after |
| Properties.RunKeepsCondValid | main.c:205-206 | that invariant holds after any number of cycles |
| Properties.StoppedRunIsFinal | main.c:205-206 | once the loop has halted or faulted, more fuel gives the same outcome and state |
| Properties.DeclaredCell | main.c:76 | with `memory[UINT16_MAX]`, every address but 0xFFFF has a cell |
| Properties.DeclaredArrayMissesLastAddress | main.c:75-76 | address 0xFFFF has no cell in the array as declared; in the model it is the last cell |

## Left out

- Loading images (`read_image_file`, `read_image` and the argument loop, main.c:99-124 and 183-196): this is file I/O. `Machine` is built from an already loaded memory image. `swap16` is modelled on its own.
- Terminal set-up and signals (`disable_input_buffering`, `restore_input_buffering`, `handle_interrupt`, main.c:160-178 and 198-199): these are process and terminal state, not machine state.
- `check_key` (main.c:131-141): the `select` on stdin is the oracle `ready`.
- `abort()` (main.c:382): process termination becomes the outcome `Fault`, with the state as it was after the fetch.
- `fflush` and stdout buffering: the model records the bytes written in order, not when they reach the terminal.
- The console output is a ghost field of `Machine`: no instruction reads it back.
- Simulator.Machine.Run: runs at most `fuel` cycles, where the C loop runs until HALT or abort. A program that never halts is described by every finite prefix.
- Semantics.PutsBytes and Semantics.PutspBytes: when no zero cell follows the string, they stop at the end of memory. The C loop reads past the end of the array, which is undefined behaviour.
- Properties.FetchReadsAtPc: only for PC other than KBSR. Fetching from KBSR polls the keyboard, as `Properties.ReadKeyboardStatus` states for every read of KBSR.
- Properties.LoadReadsTarget and Properties.LdiLoadsIndirect: only for reads away from KBSR. A read of KBSR also polls, see `Properties.ReadKeyboardStatus`.
- Properties.StoreChangesOneCell: excludes STI whose address word lies at KBSR. That poll also changes KBSR and KBDR.
- Semantics.OperateResult, Semantics.PcRelative and Semantics.BaseRelative: these carry no `ensures` of their own. What they mean is stated by `Properties.OperateResultMeaning`, `Properties.LoadReadsTarget` and `Properties.StoreChangesOneCell`.
- Simulator.Machine.UpdateFlags: stores `CondFor(reg[r])` in one assignment, where the C code uses two statements (`=` then `|=`). The value stored is the same.

## Findings

| source | as written | input that shows it | evidently intended | confidence | as-written member | corrected member |
|---|---|---|---|---|---|---|
| main.c:75-76 | `uint16_t memory[UINT16_MAX]` declares 65535 cells, indices 0..0xFFFE | any access at address 0xFFFF, e.g. a fetch with PC = 0xFFFF or `LD` whose target is 0xFFFF, indexes past the end of the array | one cell per 16-bit address, 65536 cells, as the comment on line 75 says | high; not executed | Properties.DeclaredArrayMissesLastAddress | Semantics.Addr |
