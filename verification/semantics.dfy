/**
 * The LC-3 machine as a pure state-transition system: one function per
 * piece of `main.c` that changes state (`mem_read`, `mem_write`,
 * `update_flags`, the TRAP routines and the body of the `while (running)`
 * loop). The instruction semantics are written the way the C code computes
 * them, including its habit of selecting operands by multiplying with 0 or 1;
 * `Properties` restates each instruction in plain terms and proves the two agree.
 *
 * The console is a pair of byte sequences: `input`, the bytes `getc` and
 * `getchar` will return, and `output`, everything `putc`, `puts` and
 * `printf` have written. Whether the keyboard has a byte ready (the
 * `select` in `check_key`) is an oracle `ready`, consulted once per
 * keyboard-status read and numbered from 0 within one instruction cycle.
 */
module Semantics {
  import opened Bits

  /** Layout of the register file `reg[R_COUNT]`. */
  const R_R0: nat := 0
  const R_R7: nat := 7
  const R_PC: nat := 8
  const R_COND: nat := 9
  const R_COUNT: nat := 10

  /** One cell per 16-bit address. */
  const MEMORY_SIZE: nat := 0x10000

  /** Memory-mapped keyboard status and data registers. */
  const MR_KBSR: bv16 := 0xFE00
  const MR_KBDR: bv16 := 0xFE02

  /** Where execution starts. */
  const PC_START: bv16 := 0x3000

  /** Opcodes, the top four bits of an instruction word. */
  const OP_BR: bv16 := 0
  const OP_ADD: bv16 := 1
  const OP_LD: bv16 := 2
  const OP_ST: bv16 := 3
  const OP_JSR: bv16 := 4
  const OP_AND: bv16 := 5
  const OP_LDR: bv16 := 6
  const OP_STR: bv16 := 7
  const OP_RTI: bv16 := 8
  const OP_NOT: bv16 := 9
  const OP_LDI: bv16 := 10
  const OP_STI: bv16 := 11
  const OP_JMP: bv16 := 12
  const OP_RES: bv16 := 13
  const OP_LEA: bv16 := 14
  const OP_TRAP: bv16 := 15

  /** TRAP vectors, the low eight bits of a TRAP instruction. */
  const TRAP_GETC: bv16 := 0x20
  const TRAP_OUT: bv16 := 0x21
  const TRAP_PUTS: bv16 := 0x22
  const TRAP_IN: bv16 := 0x23
  const TRAP_PUTSP: bv16 := 0x24
  const TRAP_HALT: bv16 := 0x25

  /** `(uint16_t)EOF`: what `getc` yields once the input is exhausted. */
  const EOF_WORD: bv16 := 0xFFFF

  /** The prompt TRAP IN prints before reading: "Enter a character: ". */
  const IN_PROMPT: seq<bv8> :=
    [0x45, 0x6E, 0x74, 0x65, 0x72, 0x20, 0x61, 0x20, 0x63, 0x68,
     0x61, 0x72, 0x61, 0x63, 0x74, 0x65, 0x72, 0x3A, 0x20]

  /** What `puts("HALT")` writes: "HALT" and a newline. */
  const HALT_NOTICE: seq<bv8> := [0x48, 0x41, 0x4C, 0x54, 0x0A]

  datatype Outcome = Running | Halted | Fault

  /** The register file, memory and console. */
  datatype State = State(reg: seq<bv16>, mem: seq<bv16>, input: seq<bv8>, output: seq<bv8>)
  {
    predicate Valid()
    {
      |reg| == R_COUNT && |mem| == MEMORY_SIZE
    }
  }

  /** The result of one instruction cycle. */
  datatype Transition = Transition(outcome: Outcome, state: State)

  /** The machine after loading: registers zero except PC, memory as loaded. */
  function Initial(image: seq<bv16>, input: seq<bv8>): (s: State)
    requires |image| == MEMORY_SIZE
    ensures s.Valid()
    ensures s.reg[R_PC] == PC_START && s.mem == image && s.input == input && s.output == []
    ensures forall r :: 0 <= r < R_COUNT && r != R_PC ==> s.reg[r] == 0
  {
    State(seq(R_COUNT, r => if r == R_PC then PC_START else 0), image, input, [])
  }

  /** The memory cell a 16-bit address names. */
  function Addr(address: bv16): (i: nat)
    ensures i < MEMORY_SIZE
    ensures i == address as nat
  {
    address as nat
  }

  // Instruction fields. Each sign-extended field keeps the field's bits and
  // repeats its top bit, the sign bit, in every bit above it.

  /** Bits 15..12: the opcode, one of the sixteen `OP_` values. */
  function Opcode(instr: bv16): (r: bv16)
    ensures r < 16 && r << 12 == instr & 0xF000
  {
    instr >> 12
  }

  /** Bits 11..9: the destination register, or the source of a store. */
  function Reg9(instr: bv16): (r: nat)
    ensures r < 8
  {
    ((instr >> 9) & 0x7) as nat
  }

  /** Bits 8..6: the first source register, or the base register. */
  function Reg6(instr: bv16): (r: nat)
    ensures r < 8
  {
    ((instr >> 6) & 0x7) as nat
  }

  /** Bits 2..0: the second source register. */
  function Reg0(instr: bv16): (r: nat)
    ensures r < 8
  {
    (instr & 0x7) as nat
  }

  /** Bits 4..0, sign-extended: the immediate of ADD and AND. */
  function Imm5(instr: bv16): (r: bv16)
    ensures r & 0x1F == instr & 0x1F
    ensures r >> 4 == 0 || r >> 4 == 0xFFF
  {
    SignExtend(instr & 0x1F, 5)
  }

  /** Bits 5..0, sign-extended: the offset of LDR and STR. */
  function Offset6(instr: bv16): (r: bv16)
    ensures r & 0x3F == instr & 0x3F
    ensures r >> 5 == 0 || r >> 5 == 0x7FF
  {
    SignExtend(instr & 0x3F, 6)
  }

  /** Bits 8..0, sign-extended: the PC offset of BR, LD, LDI, LEA, ST and STI. */
  function PcOffset9(instr: bv16): (r: bv16)
    ensures r & 0x1FF == instr & 0x1FF
    ensures r >> 8 == 0 || r >> 8 == 0xFF
  {
    SignExtend(instr & 0x1FF, 9)
  }

  /** Bits 10..0, sign-extended: the PC offset of JSR. */
  function PcOffset11(instr: bv16): (r: bv16)
    ensures r & 0x7FF == instr & 0x7FF
    ensures r >> 10 == 0 || r >> 10 == 0x3F
  {
    SignExtend(instr & 0x7FF, 11)
  }

  // State updates.

  function SetReg(s: State, r: nat, v: bv16): (t: State)
    requires s.Valid() && r < R_COUNT
    ensures t.Valid()
  {
    s.(reg := s.reg[r := v])
  }

  /** `update_flags(r)`: COND classifies the value now in register `r`. */
  function UpdateFlags(s: State, r: nat): (t: State)
    requires s.Valid() && r < R_COUNT
    ensures t.Valid()
  {
    s.(reg := s.reg[R_COND := CondFor(s.reg[r])])
  }

  /** `getc`: the next input byte, or EOF once the input is exhausted. */
  function Getc(input: seq<bv8>): (r: (bv16, seq<bv8>))
    ensures r.0 == EOF_WORD <==> input == []
    ensures input != [] ==> r.0 == input[0] as bv16 && [input[0]] + r.1 == input
    ensures input == [] ==> r.1 == []
  {
    if input == [] then (EOF_WORD, []) else (input[0] as bv16, input[1..])
  }

  /** `mem_write`: a plain store. */
  function Write(s: State, address: bv16, val: bv16): (t: State)
    requires s.Valid()
    ensures t.Valid()
  {
    var a := Addr(address);
    s.(mem := s.mem[a := val])
  }

  /**
   * `mem_read`: reading the keyboard status register first polls the
   * keyboard; when a byte is ready KBSR gets its top bit set and KBDR the
   * byte (from `getchar`), otherwise KBSR is cleared. Then the cell is read.
   */
  function Read(s: State, address: bv16, ready: bool): (r: (State, bv16))
    requires s.Valid()
    ensures r.0.Valid()
  {
    var polled :=
      if address != MR_KBSR then s
      else if ready then
        var (ch, rest) := Getc(s.input);
        s.(mem := s.mem[Addr(MR_KBSR) := 0x8000][Addr(MR_KBDR) := ch], input := rest)
      else
        s.(mem := s.mem[Addr(MR_KBSR) := 0]);
    var a := Addr(address);
    (polled, polled.mem[a])
  }

  /**
   * The bytes TRAP PUTS writes for the string at `a`: the low byte of each
   * cell, stopping before the first zero cell, or at the end of memory.
   */
  function PutsBytes(mem: seq<bv16>, a: nat): (r: seq<bv8>)
    ensures |r| <= if a < |mem| then |mem| - a else 0
    decreases |mem| - a
  {
    if a >= |mem| || mem[a] == 0 then []
    else [LowByte(mem[a])] + PutsBytes(mem, a + 1)
  }

  /** The one or two bytes TRAP PUTSP writes for one cell: the low byte, then the high byte unless it is zero. */
  function PackedChars(cell: bv16): (r: seq<bv8>)
    ensures 1 <= |r| <= 2 && r[0] == LowByte(cell)
  {
    [LowByte(cell)] + if cell >> 8 != 0 then [LowByte(cell >> 8)] else []
  }

  /**
   * The bytes TRAP PUTSP writes for the string at `a`: the packed
   * characters of each cell, stopping before the first zero cell, or at the
   * end of memory.
   */
  function PutspBytes(mem: seq<bv16>, a: nat): (r: seq<bv8>)
    ensures |r| <= if a < |mem| then 2 * (|mem| - a) else 0
    decreases |mem| - a
  {
    if a >= |mem| || mem[a] == 0 then []
    else PackedChars(mem[a]) + PutspBytes(mem, a + 1)
  }

  /** The TRAP service routines, selected by the vector in the low byte of the instruction. */
  function Trap(s: State, vector: bv16): (t: Transition)
    requires s.Valid()
    ensures t.state.Valid()
  {
    if vector == TRAP_GETC then
      var (ch, rest) := Getc(s.input);
      Transition(Running, SetReg(s, R_R0, ch).(input := rest))
    else if vector == TRAP_OUT then
      Transition(Running, s.(output := s.output + [LowByte(s.reg[R_R0])]))
    else if vector == TRAP_PUTS then
      Transition(Running, s.(output := s.output + PutsBytes(s.mem, Addr(s.reg[R_R0]))))
    else if vector == TRAP_IN then
      var (ch, rest) := Getc(s.input);
      var echoed := s.output + IN_PROMPT + [LowByte(ch)];
      Transition(Running, SetReg(s, R_R0, ch).(input := rest, output := echoed))
    else if vector == TRAP_PUTSP then
      Transition(Running, s.(output := s.output + PutspBytes(s.mem, Addr(s.reg[R_R0]))))
    else if vector == TRAP_HALT then
      Transition(Halted, s.(output := s.output + HALT_NOTICE))
    else
      Transition(Running, s)
  }

  // Values computed by the instructions, written as the C code computes them.

  /**
   * The result of ADD, AND or NOT with source registers holding `sr1` and
   * `sr2`. Bit 5 selects the immediate: the C code picks the operand by
   * multiplying with 0 or 1.
   */
  function OperateResult(instr: bv16, sr1: bv16, sr2: bv16): (r: bv16)
  {
    var op := Opcode(instr);
    var immFlag := (instr >> 5) & 0x1;
    if op == OP_ADD then sr1 + LogicalNot(immFlag) * sr2 + Imm5(instr) * immFlag
    else if op == OP_AND then sr1 & (LogicalNot(immFlag) * sr2 + Imm5(instr) * immFlag)
    else !sr1
  }

  /** BR: PC plus the offset when one of the tested flags (bits 11..9) is set in COND. */
  function BranchTarget(instr: bv16, pc: bv16, cond: bv16): (r: bv16)
    ensures r == pc || r == pc + PcOffset9(instr)
  {
    var flag := ((instr >> 9) & 0x7) & cond;
    pc + PcOffset9(instr) * LogicalNot(LogicalNot(flag))
  }

  /** JSR (bit 11 set): PC plus the offset; JSRR: the base register. */
  function SubroutineTarget(instr: bv16, pc: bv16, base: bv16): (r: bv16)
    ensures r == base || r == pc + PcOffset11(instr)
  {
    var flag := (instr >> 11) & 0x1;
    pc * flag + base * LogicalNot(flag) + PcOffset11(instr) * flag
  }

  /** The address `PC + PCoffset9` used by LD, LDI, ST, STI and LEA. */
  function PcRelative(instr: bv16, pc: bv16): (r: bv16)
  {
    pc + PcOffset9(instr)
  }

  /** The address `base + offset6` used by LDR and STR. */
  function BaseRelative(instr: bv16, base: bv16): (r: bv16)
  {
    base + Offset6(instr)
  }

  // Instruction groups.

  /** ADD, AND and NOT: compute into the destination register, then update COND from it. */
  function Operate(s: State, instr: bv16): (t: State)
    requires s.Valid()
    ensures t.Valid()
  {
    var r0 := Reg9(instr);
    var v := OperateResult(instr, s.reg[Reg6(instr)], s.reg[Reg0(instr)]);
    UpdateFlags(SetReg(s, r0, v), r0)
  }

  /**
   * BR, JMP and JSR/JSRR: change PC. JSR/JSRR first saves PC in R7 and then
   * reads the base register, so JSRR through R7 jumps to the saved PC.
   */
  function Control(s: State, instr: bv16): (t: State)
    requires s.Valid()
    ensures t.Valid()
  {
    var op := Opcode(instr);
    if op == OP_BR then
      SetReg(s, R_PC, BranchTarget(instr, s.reg[R_PC], s.reg[R_COND]))
    else if op == OP_JMP then
      SetReg(s, R_PC, s.reg[Reg6(instr)])
    else
      var linked := SetReg(s, R_R7, s.reg[R_PC]);
      SetReg(linked, R_PC, SubroutineTarget(instr, linked.reg[R_PC], linked.reg[Reg6(instr)]))
  }

  /**
   * The value LD, LDI, LDR or LEA loads, and the state after the memory
   * reads that produce it. Keyboard polls use `ready(1)` and `ready(2)`;
   * poll 0 belongs to the fetch.
   */
  function LoadValue(s: State, instr: bv16, ready: nat -> bool): (r: (State, bv16))
    requires s.Valid()
    ensures r.0.Valid()
  {
    var op := Opcode(instr);
    if op == OP_LD then
      Read(s, PcRelative(instr, s.reg[R_PC]), ready(1))
    else if op == OP_LDI then
      var (s1, a) := Read(s, PcRelative(instr, s.reg[R_PC]), ready(1));
      Read(s1, a, ready(2))
    else if op == OP_LDR then
      Read(s, BaseRelative(instr, s.reg[Reg6(instr)]), ready(1))
    else
      (s, PcRelative(instr, s.reg[R_PC]))
  }

  /** LD, LDI, LDR and LEA: load the destination register, then update COND from it. */
  function Load(s: State, instr: bv16, ready: nat -> bool): (t: State)
    requires s.Valid()
    ensures t.Valid()
  {
    var r0 := Reg9(instr);
    var (s1, v) := LoadValue(s, instr, ready);
    UpdateFlags(SetReg(s1, r0, v), r0)
  }

  /** ST, STI and STR: store the source register. STI's read of the address word uses `ready(1)`. */
  function Store(s: State, instr: bv16, ready: nat -> bool): (t: State)
    requires s.Valid()
    ensures t.Valid()
  {
    var op := Opcode(instr);
    var r0 := Reg9(instr);
    if op == OP_ST then
      Write(s, PcRelative(instr, s.reg[R_PC]), s.reg[r0])
    else if op == OP_STI then
      var (s1, a) := Read(s, PcRelative(instr, s.reg[R_PC]), ready(1));
      Write(s1, a, s1.reg[r0])
    else
      Write(s, BaseRelative(instr, s.reg[Reg6(instr)]), s.reg[r0])
  }

  /** Dispatches `instr` on a state whose PC has already been advanced past it. */
  function Execute(s: State, instr: bv16, ready: nat -> bool): (t: Transition)
    requires s.Valid()
    ensures t.state.Valid()
  {
    var op := Opcode(instr);
    if op == OP_ADD || op == OP_AND || op == OP_NOT then
      Transition(Running, Operate(s, instr))
    else if op == OP_BR || op == OP_JMP || op == OP_JSR then
      Transition(Running, Control(s, instr))
    else if op == OP_LD || op == OP_LDI || op == OP_LDR || op == OP_LEA then
      Transition(Running, Load(s, instr, ready))
    else if op == OP_ST || op == OP_STI || op == OP_STR then
      Transition(Running, Store(s, instr, ready))
    else if op == OP_TRAP then
      Trap(s, instr & 0xFF)
    else
      // OP_RES and OP_RTI, the two opcodes left: abort()
      Transition(Fault, s)
  }

  /**
   * The fetch at the top of the `while (running)` loop: read the word at PC
   * (poll 0 of the cycle) after advancing PC, which wraps at 0xFFFF.
   */
  function Fetch(s: State, ready: bool): (r: (State, bv16))
    requires s.Valid()
    ensures r.0.Valid()
  {
    var pc := s.reg[R_PC];
    Read(SetReg(s, R_PC, pc + 1), pc, ready)
  }

  /** One cycle of the `while (running)` loop: fetch, then execute the fetched word. */
  function Next(s: State, ready: nat -> bool): (t: Transition)
    requires s.Valid()
    ensures t.state.Valid()
  {
    var (fetched, instr) := Fetch(s, ready(0));
    Execute(fetched, instr, ready)
  }

  /**
   * At most `fuel` cycles of the loop, starting with cycle number `cycle`,
   * whose keyboard oracle is `ready(cycle)`. The loop ends at the first
   * cycle that halts or faults.
   */
  function RunFrom(s: State, fuel: nat, ready: nat -> nat -> bool, cycle: nat): (t: Transition)
    requires s.Valid()
    ensures t.state.Valid()
    decreases fuel
  {
    if fuel == 0 then Transition(Running, s)
    else
      var t := Next(s, ready(cycle));
      if t.outcome == Running then RunFrom(t.state, fuel - 1, ready, cycle + 1) else t
  }

  /** One more cycle of `RunFrom`, given the transition `t` that cycle makes. */
  lemma RunFromCycle(s: State, fuel: nat, ready: nat -> nat -> bool, cycle: nat, t: Transition)
    requires s.Valid() && fuel > 0 && t == Next(s, ready(cycle))
    ensures t.state.Valid()
    ensures RunFrom(s, fuel, ready, cycle) ==
      if t.outcome == Running then RunFrom(t.state, fuel - 1, ready, cycle + 1) else t
  {
  }
}
