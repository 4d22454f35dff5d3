/**
 * What the simulator's instructions mean, stated against the `Semantics`
 * functions: which cells and registers each one reads and changes, the
 * operand selections the C code encodes as multiplications by 0 or 1, the
 * keyboard registers, the TRAP routines, the condition-code invariant and
 * the way the main loop stops.
 */
module Properties {
  import opened Bits
  import opened Semantics

  // Memory access.

  /** Every register and the console are as in `s`; memory may differ. */
  predicate SameRegistersAndConsole(s: State, t: State)
  {
    t.reg == s.reg && t.input == s.input && t.output == s.output
  }

  /** `mem_write` changes exactly the addressed cell. */
  lemma WriteChangesOneCell(s: State, address: bv16, val: bv16)
    requires s.Valid()
    ensures var t := Write(s, address, val);
      && SameRegistersAndConsole(s, t)
      && t.mem[Addr(address)] == val
      && forall i :: 0 <= i < MEMORY_SIZE && i != Addr(address) ==> t.mem[i] == s.mem[i]
  {
  }

  /** Away from the keyboard status register, a read returns what the last write stored. */
  lemma ReadAfterWrite(s: State, address: bv16, val: bv16, ready: bool)
    requires s.Valid() && address != MR_KBSR
    ensures Read(Write(s, address, val), address, ready).1 == val
  {
  }

  /** Reading any address other than KBSR is a plain read: nothing changes, not even the input. */
  lemma ReadPlainAddress(s: State, address: bv16, ready: bool)
    requires s.Valid() && address != MR_KBSR
    ensures Read(s, address, ready) == (s, s.mem[Addr(address)])
  {
  }

  /**
   * Reading KBSR polls the keyboard. With a byte ready the read returns a
   * word with bit 15 set, KBDR receives the next input byte (EOF once the
   * input is exhausted) and the input loses that byte; without one the read
   * returns 0 and the input is untouched. Either way KBSR keeps the word the
   * read returned. No other cell and no register changes.
   */
  lemma ReadKeyboardStatus(s: State, ready: bool)
    requires s.Valid()
    ensures var (t, v) := Read(s, MR_KBSR, ready);
      && t.reg == s.reg && t.output == s.output
      && (forall i :: 0 <= i < MEMORY_SIZE && i != Addr(MR_KBSR) && i != Addr(MR_KBDR) ==> t.mem[i] == s.mem[i])
      && (ready ==>
            && v == 0x8000 && t.mem[Addr(MR_KBSR)] == 0x8000
            && t.mem[Addr(MR_KBDR)] == (if s.input == [] then EOF_WORD else s.input[0] as bv16)
            && t.input == (if s.input == [] then [] else s.input[1..]))
      && (!ready ==> v == 0 && t.mem[Addr(MR_KBSR)] == 0 && t.input == s.input && t.mem[Addr(MR_KBDR)] == s.mem[Addr(MR_KBDR)])
  {
  }

  /** Polling an idle keyboard twice is the same as polling it once. */
  lemma IdlePollIsIdempotent(s: State)
    requires s.Valid()
    ensures var (t, v) := Read(s, MR_KBSR, false);
      Read(t, MR_KBSR, false) == (t, v) && v == 0
  {
    var t := Read(s, MR_KBSR, false).0;
    assert t.mem[Addr(MR_KBSR) := 0] == t.mem;
  }

  // The fetch.

  /**
   * The fetch reads the word at the old PC and leaves PC one past it
   * (wrapping from 0xFFFF to 0); memory, the console and every other
   * register are unchanged unless PC pointed at KBSR.
   */
  lemma FetchReadsAtPc(s: State, ready: bool)
    requires s.Valid() && s.reg[R_PC] != MR_KBSR
    ensures var (t, instr) := Fetch(s, ready);
      && instr == s.mem[Addr(s.reg[R_PC])]
      && t.reg[R_PC] == s.reg[R_PC] + 1
      && (s.reg[R_PC] == 0xFFFF ==> t.reg[R_PC] == 0)
      && t.mem == s.mem && t.input == s.input && t.output == s.output
      && forall r :: 0 <= r < R_COUNT && r != R_PC ==> t.reg[r] == s.reg[r]
  {
  }

  // ADD, AND and NOT.

  /**
   * Bit 5 selects the second operand: the sign-extended imm5 field when set,
   * register SR2 otherwise. NOT complements SR1.
   */
  lemma OperateResultMeaning(instr: bv16, sr1: bv16, sr2: bv16)
    ensures Opcode(instr) == OP_ADD ==>
      OperateResult(instr, sr1, sr2) == sr1 + (if Bit(instr, 5) == 1 then Imm5(instr) else sr2)
    ensures Opcode(instr) == OP_AND ==>
      OperateResult(instr, sr1, sr2) == sr1 & (if Bit(instr, 5) == 1 then Imm5(instr) else sr2)
    ensures Opcode(instr) == OP_NOT ==> OperateResult(instr, sr1, sr2) == !sr1
  {
  }

  /** `ADD R1, R1, #-1` (0x127F) decrements R1, wrapping 0 to 0xFFFF. */
  lemma AddImmediateExample(x: bv16, y: bv16)
    ensures OperateResult(0x127F, x, y) == x - 1
    ensures OperateResult(0x127F, 0, y) == 0xFFFF
  {
  }

  /**
   * ADD, AND and NOT write their result into DR (bits 11..9) and set COND
   * from it; no other register, no memory cell and nothing on the console changes.
   */
  lemma OperateChangesDestinationAndCond(s: State, instr: bv16)
    requires s.Valid()
    ensures var t := Operate(s, instr);
      var v := OperateResult(instr, s.reg[Reg6(instr)], s.reg[Reg0(instr)]);
      && t.reg[Reg9(instr)] == v
      && t.reg[R_COND] == CondFor(v)
      && t.mem == s.mem && t.input == s.input && t.output == s.output
      && forall r :: 0 <= r < R_COUNT && r != Reg9(instr) && r != R_COND ==> t.reg[r] == s.reg[r]
  {
  }

  // BR, JMP, JSR and JSRR.

  /** BR adds the offset exactly when one of the flags it tests (bits 11..9) is set in COND. */
  lemma BranchTargetMeaning(instr: bv16, pc: bv16, cond: bv16)
    ensures BranchTarget(instr, pc, cond) ==
      if ((instr >> 9) & 0x7) & cond != 0 then pc + PcOffset9(instr) else pc
  {
    var flag := ((instr >> 9) & 0x7) & cond;
    MulByFlag(PcOffset9(instr), LogicalNot(LogicalNot(flag)));
  }

  /** JSR (bit 11 set) jumps PC-relative; JSRR jumps to the base register. */
  lemma SubroutineTargetMeaning(instr: bv16, pc: bv16, base: bv16)
    ensures SubroutineTarget(instr, pc, base) ==
      if Bit(instr, 11) == 1 then pc + PcOffset11(instr) else base
  {
    var flag := (instr >> 11) & 0x1;
    MulByFlag(pc, flag);
    MulByFlag(base, LogicalNot(flag));
    MulByFlag(PcOffset11(instr), flag);
  }

  /** BR and JMP change PC only. */
  lemma BranchAndJumpChangePcOnly(s: State, instr: bv16)
    requires s.Valid() && (Opcode(instr) == OP_BR || Opcode(instr) == OP_JMP)
    ensures var t := Control(s, instr);
      && t.mem == s.mem && t.input == s.input && t.output == s.output
      && (forall r :: 0 <= r < R_COUNT && r != R_PC ==> t.reg[r] == s.reg[r])
      && t.reg[R_PC] == if Opcode(instr) == OP_BR then BranchTarget(instr, s.reg[R_PC], s.reg[R_COND])
                        else s.reg[Reg6(instr)]
  {
  }

  /**
   * While COND is still 0, as it is from the start until the first
   * flag-setting instruction, no BR branches, not even BRnzp: the
   * instruction changes nothing.
   */
  lemma BranchWithClearCondFallsThrough(s: State, instr: bv16)
    requires s.Valid() && Opcode(instr) == OP_BR && s.reg[R_COND] == 0
    ensures Control(s, instr) == s
  {
    BranchTargetMeaning(instr, s.reg[R_PC], 0);
    assert Control(s, instr).reg == s.reg;
  }

  /** JSR and JSRR save the return address (the incremented PC) in R7 and change nothing but R7 and PC. */
  lemma SubroutineCallLinks(s: State, instr: bv16)
    requires s.Valid() && Opcode(instr) == OP_JSR
    ensures var t := Control(s, instr);
      && t.mem == s.mem && t.input == s.input && t.output == s.output
      && (forall r :: 0 <= r < R_COUNT && r != R_PC && r != R_R7 ==> t.reg[r] == s.reg[r])
      && t.reg[R_R7] == s.reg[R_PC]
  {
  }

  /**
   * JSR jumps PC-relative; JSRR jumps to the base register as it reads
   * after R7 has received the return address.
   */
  lemma SubroutineCallTarget(s: State, instr: bv16)
    requires s.Valid() && Opcode(instr) == OP_JSR
    ensures Bit(instr, 11) == 1 ==> Control(s, instr).reg[R_PC] == s.reg[R_PC] + PcOffset11(instr)
    ensures Bit(instr, 11) == 0 ==>
      Control(s, instr).reg[R_PC] == if Reg6(instr) == R_R7 then s.reg[R_PC] else s.reg[Reg6(instr)]
  {
    var base := if Reg6(instr) == R_R7 then s.reg[R_PC] else s.reg[Reg6(instr)];
    SubroutineCallReadsBase(s, instr);
    SubroutineTargetMeaning(instr, s.reg[R_PC], base);
  }

  /** JSR/JSRR computes its target from the PC and the base register as it reads after the link. */
  lemma SubroutineCallReadsBase(s: State, instr: bv16)
    requires s.Valid() && Opcode(instr) == OP_JSR
    ensures Control(s, instr).reg[R_PC] ==
      SubroutineTarget(instr, s.reg[R_PC], if Reg6(instr) == R_R7 then s.reg[R_PC] else s.reg[Reg6(instr)])
  {
  }

  /**
   * JSRR through R7 writes the return address into R7 before it reads the
   * base register, so it "jumps" to the instruction after itself.
   */
  lemma JsrrThroughR7Continues(s: State, instr: bv16)
    requires s.Valid() && Opcode(instr) == OP_JSR && Bit(instr, 11) == 0 && Reg6(instr) == R_R7
    ensures Control(s, instr).reg[R_PC] == s.reg[R_PC]
    ensures Control(s, instr).reg[R_R7] == s.reg[R_PC]
  {
    SubroutineCallLinks(s, instr);
    SubroutineCallTarget(s, instr);
  }

  // LD, LDI, LDR and LEA.

  /** LD and LDR load the addressed cell; LEA loads the address itself and touches no memory. */
  lemma LoadReadsTarget(s: State, instr: bv16, ready: nat -> bool)
    requires s.Valid()
    ensures Opcode(instr) == OP_LD && PcRelative(instr, s.reg[R_PC]) != MR_KBSR ==>
      LoadValue(s, instr, ready) == (s, s.mem[Addr(PcRelative(instr, s.reg[R_PC]))])
    ensures Opcode(instr) == OP_LDR && BaseRelative(instr, s.reg[Reg6(instr)]) != MR_KBSR ==>
      LoadValue(s, instr, ready) == (s, s.mem[Addr(BaseRelative(instr, s.reg[Reg6(instr)]))])
    ensures Opcode(instr) == OP_LEA ==>
      LoadValue(s, instr, ready) == (s, s.reg[R_PC] + PcOffset9(instr))
  {
  }

  /**
   * LDI reads an address word at PC + offset and loads the cell that word names.
   * Away from KBSR neither read changes memory or the input.
   */
  lemma LdiLoadsIndirect(s: State, instr: bv16, ready: nat -> bool)
    requires s.Valid() && Opcode(instr) == OP_LDI
    requires PcRelative(instr, s.reg[R_PC]) != MR_KBSR
    requires s.mem[Addr(PcRelative(instr, s.reg[R_PC]))] != MR_KBSR
    ensures var indirect := s.mem[Addr(PcRelative(instr, s.reg[R_PC]))];
      LoadValue(s, instr, ready) == (s, s.mem[Addr(indirect)])
  {
  }

  /**
   * The load group sets DR (bits 11..9) to the loaded value and COND from
   * it; apart from the memory reads no other register and nothing on the
   * console changes.
   */
  lemma LoadSetsDestinationAndCond(s: State, instr: bv16, ready: nat -> bool)
    requires s.Valid()
    ensures var (s1, v) := LoadValue(s, instr, ready);
      var t := Load(s, instr, ready);
      && t.reg[Reg9(instr)] == v
      && t.reg[R_COND] == CondFor(v)
      && t.mem == s1.mem && t.input == s1.input && t.output == s.output
      && forall r :: 0 <= r < R_COUNT && r != Reg9(instr) && r != R_COND ==> t.reg[r] == s.reg[r]
  {
  }

  /** A memory image with 200 at address 100 and 42 at address 200. */
  function IndirectImage(): (mem: seq<bv16>)
    ensures |mem| == MEMORY_SIZE && mem[100] == 200 && mem[200] == 42
  {
    seq(MEMORY_SIZE, i => if i == 100 then 200 else if i == 200 then 42 else 0)
  }

  /** `LDI R0, #0` (0xA000) with PC at 100, over the image above, loads 42 and sets COND to POS. */
  lemma LdiExample(ready: nat -> bool)
    ensures var s := State(seq(R_COUNT, r => if r == R_PC then 100 else 0), IndirectImage(), [], []);
      var t := Load(s, 0xA000, ready);
      t.reg[R_R0] == 42 && t.reg[R_COND] == FL_POS
  {
    var s := State(seq(R_COUNT, r => if r == R_PC then 100 else 0), IndirectImage(), [], []);
    assert PcRelative(0xA000, s.reg[R_PC]) == 100;
    LdiLoadsIndirect(s, 0xA000, ready);
  }

  // ST, STI and STR.

  /**
   * ST and STR, and STI when its address word is not read from KBSR, store SR
   * (bits 11..9) into exactly one cell: PC + offset, base + offset, or the
   * cell the address word names. Registers and the console are unchanged.
   */
  lemma StoreChangesOneCell(s: State, instr: bv16, ready: nat -> bool)
    requires s.Valid()
    requires Opcode(instr) == OP_ST || Opcode(instr) == OP_STR
      || (Opcode(instr) == OP_STI && PcRelative(instr, s.reg[R_PC]) != MR_KBSR)
    ensures var t := Store(s, instr, ready);
      var target :=
        if Opcode(instr) == OP_ST then PcRelative(instr, s.reg[R_PC])
        else if Opcode(instr) == OP_STR then BaseRelative(instr, s.reg[Reg6(instr)])
        else s.mem[Addr(PcRelative(instr, s.reg[R_PC]))];
      && SameRegistersAndConsole(s, t)
      && t.mem[Addr(target)] == s.reg[Reg9(instr)]
      && forall i :: 0 <= i < MEMORY_SIZE && i != Addr(target) ==> t.mem[i] == s.mem[i]
  {
    var op := Opcode(instr);
    if op == OP_ST {
      WriteChangesOneCell(s, PcRelative(instr, s.reg[R_PC]), s.reg[Reg9(instr)]);
    } else if op == OP_STR {
      WriteChangesOneCell(s, BaseRelative(instr, s.reg[Reg6(instr)]), s.reg[Reg9(instr)]);
    } else {
      ReadPlainAddress(s, PcRelative(instr, s.reg[R_PC]), ready(1));
      WriteChangesOneCell(s, s.mem[Addr(PcRelative(instr, s.reg[R_PC]))], s.reg[Reg9(instr)]);
    }
  }

  // The TRAP routines.

  /**
   * GETC and IN read the next console byte (EOF once the input is
   * exhausted) into R0; IN first prints its prompt and then echoes the low
   * byte of what it read. COND is not updated, and nothing else changes.
   */
  lemma ConsoleReadTraps(s: State, vector: bv16)
    requires s.Valid() && (vector == TRAP_GETC || vector == TRAP_IN)
    ensures var (ch, rest) := Getc(s.input);
      var t := Trap(s, vector);
      && t.outcome == Running
      && t.state.reg == s.reg[R_R0 := ch]
      && t.state.reg[R_COND] == s.reg[R_COND]
      && t.state.mem == s.mem
      && t.state.input == rest
      && t.state.output == if vector == TRAP_GETC then s.output else s.output + IN_PROMPT + [LowByte(ch)]
  {
  }

  /**
   * OUT, PUTS, PUTSP and HALT only append to the console output: OUT the low
   * byte of R0, PUTS and PUTSP the string R0 points to, HALT its notice.
   * Exactly HALT stops the machine.
   */
  lemma ConsoleWriteTraps(s: State, vector: bv16)
    requires s.Valid()
    requires vector == TRAP_OUT || vector == TRAP_PUTS || vector == TRAP_PUTSP || vector == TRAP_HALT
    ensures var t := Trap(s, vector);
      && t.state == s.(output := t.state.output)
      && t.state.output == s.output +
           (if vector == TRAP_OUT then [LowByte(s.reg[R_R0])]
            else if vector == TRAP_PUTS then PutsBytes(s.mem, Addr(s.reg[R_R0]))
            else if vector == TRAP_PUTSP then PutspBytes(s.mem, Addr(s.reg[R_R0]))
            else HALT_NOTICE)
      && (t.outcome == Halted <==> vector == TRAP_HALT)
      && (t.outcome != Fault)
  {
  }

  /** A vector the switch has no case for does nothing: the machine runs on unchanged. */
  lemma UnknownTrapIsNoOp(s: State, vector: bv16)
    requires s.Valid() && !(TRAP_GETC <= vector <= TRAP_HALT)
    ensures Trap(s, vector) == Transition(Running, s)
  {
  }

  /** No TRAP routine touches memory, PC, R1..R7 or COND, and none faults. */
  lemma TrapKeepsMachine(s: State, vector: bv16)
    requires s.Valid()
    ensures var t := Trap(s, vector);
      && t.outcome != Fault
      && t.state.mem == s.mem
      && forall r :: 0 <= r < R_COUNT && r != R_R0 ==> t.state.reg[r] == s.reg[r]
  {
  }

  /** The bytes PUTS writes for "Hi" stored one character per cell at 0x4000. */
  function GreetingImage(): (mem: seq<bv16>)
    ensures |mem| == MEMORY_SIZE && mem[0x4000] == 0x48 && mem[0x4001] == 0x69 && mem[0x4002] == 0
  {
    seq(MEMORY_SIZE, i => if i == 0x4000 then 0x48 else if i == 0x4001 then 0x69 else 0)
  }

  /** TRAP PUTS with R0 = 0x4000 over the image above prints "Hi". */
  lemma PutsExample(s: State)
    requires s.Valid() && s.mem == GreetingImage() && s.reg[R_R0] == 0x4000
    ensures Trap(s, TRAP_PUTS).state.output == s.output + [0x48, 0x69]
  {
    var mem := GreetingImage();
    assert PutsBytes(mem, 0x4002) == [];
    assert PutsBytes(mem, 0x4001) == [0x69];
  }

  // What PUTS and PUTSP print.

  /**
   * PUTS prints the low byte of every cell from `a` up to, not including,
   * the first zero cell; it stops at the end of memory when there is none.
   */
  lemma {:induction false} PutsBytesSpec(mem: seq<bv16>, a: nat)
    requires a <= |mem|
    ensures a + |PutsBytes(mem, a)| <= |mem|
    ensures forall i :: a <= i < a + |PutsBytes(mem, a)| ==>
      mem[i] != 0 && PutsBytes(mem, a)[i - a] == LowByte(mem[i])
    ensures a + |PutsBytes(mem, a)| == |mem| || mem[a + |PutsBytes(mem, a)|] == 0
    decreases |mem| - a
  {
    if a < |mem| && mem[a] != 0 {
      PutsBytesSpec(mem, a + 1);
      assert PutsBytes(mem, a) == [LowByte(mem[a])] + PutsBytes(mem, a + 1);
    }
  }

  /**
   * PUTSP prints each cell's low byte and then its high byte, the high byte
   * only when it is not zero.
   */
  lemma PackedCharsMeaning(cell: bv16)
    ensures var bytes := PackedChars(cell);
      && 1 <= |bytes| <= 2
      && bytes[0] as bv16 == cell & 0xFF
      && (|bytes| == 2 <==> cell >> 8 != 0)
      && (|bytes| == 2 ==> bytes[1] as bv16 == cell >> 8)
  {
  }

  /** The packed characters of the `n` cells from `a` on, one cell after another. */
  function ConcatPacked(mem: seq<bv16>, a: nat, n: nat): (r: seq<bv8>)
    requires a + n <= |mem|
    ensures n <= |r| <= 2 * n
    decreases n
  {
    if n == 0 then [] else PackedChars(mem[a]) + ConcatPacked(mem, a + 1, n - 1)
  }

  /**
   * PUTSP walks exactly the cells PUTS walks, from `a` up to the first zero
   * cell or the end of memory, and prints the packed characters of each.
   */
  lemma {:induction false} PutspBytesSpec(mem: seq<bv16>, a: nat)
    requires a <= |mem|
    ensures PutspBytes(mem, a) == ConcatPacked(mem, a, |PutsBytes(mem, a)|)
    decreases |mem| - a
  {
    if a < |mem| && mem[a] != 0 {
      PutspBytesSpec(mem, a + 1);
    }
  }

  /**
   * PUTSP walks the same cells as PUTS and prints one or two bytes for each,
   * so it prints at least as many and at most twice as many bytes.
   */
  lemma {:induction false} PutspLength(mem: seq<bv16>, a: nat)
    ensures |PutsBytes(mem, a)| <= |PutspBytes(mem, a)| <= 2 * |PutsBytes(mem, a)|
    decreases |mem| - a
  {
    if a < |mem| && mem[a] != 0 {
      PutspLength(mem, a + 1);
    }
  }

  /**
   * On a string whose cells all have a zero high byte, PUTSP prints what PUTS
   * prints. Only the cells of the string matter, not the rest of memory.
   */
  lemma {:induction false} PutspOfUnpackedString(mem: seq<bv16>, a: nat)
    requires forall i :: a <= i < a + |PutsBytes(mem, a)| ==> mem[i] >> 8 == 0
    ensures PutspBytes(mem, a) == PutsBytes(mem, a)
    decreases |mem| - a
  {
    if a < |mem| && mem[a] != 0 {
      assert PutsBytes(mem, a) == [LowByte(mem[a])] + PutsBytes(mem, a + 1);
      PutspOfUnpackedString(mem, a + 1);
    }
  }

  // Decoding: which opcodes stop the machine.

  /**
   * Executing a word faults exactly for the reserved opcode and RTI, and
   * then changes nothing; it halts exactly for TRAP HALT. Every other word
   * keeps the machine running.
   */
  lemma ExecuteOutcome(s: State, instr: bv16, ready: nat -> bool)
    requires s.Valid()
    ensures var t := Execute(s, instr, ready);
      && (t.outcome == Fault <==> Opcode(instr) == OP_RES || Opcode(instr) == OP_RTI)
      && (t.outcome == Fault ==> t.state == s)
      && (t.outcome == Halted <==> Opcode(instr) == OP_TRAP && instr & 0xFF == TRAP_HALT)
  {
    assert Opcode(instr) < 16;
  }

  /**
   * One cycle of the loop halts exactly when the word fetched at PC is
   * TRAP HALT and faults exactly when it is RES or RTI.
   */
  lemma NextOutcome(s: State, ready: nat -> bool)
    requires s.Valid()
    ensures var (fetched, instr) := Fetch(s, ready(0));
      var t := Next(s, ready);
      && (t.outcome == Halted <==> Opcode(instr) == OP_TRAP && instr & 0xFF == TRAP_HALT)
      && (t.outcome == Fault <==> Opcode(instr) == OP_RES || Opcode(instr) == OP_RTI)
      && (t.outcome == Fault ==> t.state == fetched)
  {
    var (fetched, instr) := Fetch(s, ready(0));
    ExecuteOutcome(fetched, instr, ready);
  }

  // The condition codes.

  /** COND holds exactly one of the three flags. */
  predicate CondValid(s: State)
    requires s.Valid()
  {
    s.reg[R_COND] == FL_POS || s.reg[R_COND] == FL_ZRO || s.reg[R_COND] == FL_NEG
  }

  /**
   * Every instruction either leaves COND alone or sets it from a register
   * through `update_flags`, so once COND holds one flag it always does.
   */
  lemma NextKeepsCondValid(s: State, ready: nat -> bool)
    requires s.Valid() && CondValid(s)
    ensures CondValid(Next(s, ready).state)
  {
    var (fetched, instr) := Fetch(s, ready(0));
    assert fetched.reg[R_COND] == s.reg[R_COND];
    var op := Opcode(instr);
    if op == OP_ADD || op == OP_AND || op == OP_NOT {
    } else if op == OP_BR || op == OP_JMP || op == OP_JSR {
      assert Control(fetched, instr).reg[R_COND] == fetched.reg[R_COND];
    } else if op == OP_LD || op == OP_LDI || op == OP_LDR || op == OP_LEA {
    } else if op == OP_ST || op == OP_STI || op == OP_STR {
      assert Store(fetched, instr, ready).reg == fetched.reg;
    } else if op == OP_TRAP {
      TrapKeepsMachine(fetched, instr & 0xFF);
    }
  }

  /** Any number of cycles keeps COND holding exactly one flag. */
  lemma {:induction false} RunKeepsCondValid(s: State, fuel: nat, ready: nat -> nat -> bool, cycle: nat)
    requires s.Valid() && CondValid(s)
    ensures CondValid(RunFrom(s, fuel, ready, cycle).state)
    decreases fuel
  {
    if fuel > 0 {
      var t := Next(s, ready(cycle));
      NextKeepsCondValid(s, ready(cycle));
      RunFromCycle(s, fuel, ready, cycle, t);
      if t.outcome == Running {
        RunKeepsCondValid(t.state, fuel - 1, ready, cycle + 1);
      }
    }
  }

  // The main loop.

  /** Once the machine has halted or faulted, more fuel changes nothing. */
  lemma {:induction false} StoppedRunIsFinal(s: State, fuel: nat, extra: nat, ready: nat -> nat -> bool, cycle: nat)
    requires s.Valid() && RunFrom(s, fuel, ready, cycle).outcome != Running
    ensures RunFrom(s, fuel + extra, ready, cycle) == RunFrom(s, fuel, ready, cycle)
    decreases fuel
  {
    var t := Next(s, ready(cycle));
    RunFromCycle(s, fuel, ready, cycle, t);
    RunFromCycle(s, fuel + extra, ready, cycle, t);
    if t.outcome == Running {
      StoppedRunIsFinal(t.state, fuel - 1, extra, ready, cycle + 1);
      assert fuel - 1 + extra == fuel + extra - 1;
    }
  }

  // The size of `memory`.

  datatype Option<T> = None | Some(value: T)

  /** The number of cells `uint16_t memory[UINT16_MAX]` declares: one fewer than there are addresses. */
  const DECLARED_CELLS: bv16 := 0xFFFF

  /** The cell of the array as declared that an address names, if it has one. */
  function DeclaredCell(address: bv16): (cell: Option<nat>)
    ensures cell.Some? <==> address != 0xFFFF
    ensures cell.Some? ==> cell.value == Addr(address)
  {
    if address < DECLARED_CELLS then Some(Addr(address)) else None
  }

  /**
   * With the array as declared, the last address has no cell: a fetch, load
   * or store at 0xFFFF would reach past the end of `memory`. With one cell
   * per address, as modelled, it names the last cell.
   */
  lemma DeclaredArrayMissesLastAddress()
    ensures DeclaredCell(0xFFFF) == None
    ensures Addr(0xFFFF) == MEMORY_SIZE - 1
  {
  }
}
