/**
 * The simulator as `main.c` runs it: the global arrays `reg` and `memory`
 * become the array fields of one `Machine` object, `update_flags`,
 * `mem_read` and `mem_write` become methods that update them in place, and
 * the body of the `while (running)` loop becomes `Step`. Every method is
 * proved to have exactly the effect `Semantics` gives the same operation.
 */
module Simulator {
  import opened Bits
  import opened Semantics

  class Machine {
    /** R0..R7, PC and COND, laid out as `reg[R_COUNT]`. */
    var reg: array<bv16>
    /** One word per 16-bit address. */
    var mem: array<bv16>
    /** Console bytes that `getc` and `getchar` have not returned yet. */
    var input: seq<bv8>
    /** Every byte written to the console so far. */
    ghost var output: seq<bv8>

    ghost predicate Valid()
      reads this
    {
      reg.Length == R_COUNT && mem.Length == MEMORY_SIZE && reg != mem
    }

    /** The machine as a `Semantics.State` value. */
    ghost function Model(): (s: Semantics.State)
      reads this, reg, mem
      requires Valid()
      ensures s.Valid()
    {
      Semantics.State(reg[..], mem[..], input, output)
    }

    /** The machine once the loader has filled memory with `image`: PC is PC_START, every other register zero. */
    constructor (image: seq<bv16>, consoleInput: seq<bv8>)
      requires |image| == MEMORY_SIZE
      ensures Valid() && fresh(reg) && fresh(mem)
      ensures Model() == Initial(image, consoleInput)
    {
      reg := new bv16[R_COUNT](r => if r == R_PC then PC_START else 0);
      mem := new bv16[MEMORY_SIZE](a requires 0 <= a < MEMORY_SIZE => image[a]);
      input := consoleInput;
      output := [];
      new;
      assert reg[..] == Initial(image, consoleInput).reg;
      assert mem[..] == image;
    }

    /** `getc(stdin)` and `getchar()`: the next console byte, or EOF once the input is exhausted. */
    method GetChar() returns (ch: bv16)
      modifies this`input
      ensures (ch, input) == Getc(old(input))
    {
      if input == [] {
        ch := EOF_WORD;
      } else {
        ch := input[0] as bv16;
        input := input[1..];
      }
    }

    /** `update_flags(r)`. */
    method UpdateFlags(r: nat)
      requires Valid() && r < R_COUNT
      modifies reg
      ensures Model() == Semantics.UpdateFlags(old(Model()), r)
    {
      reg[R_COND] := CondFor(reg[r]);
    }

    /** `mem_write(address, val)`. */
    method MemWrite(address: bv16, val: bv16)
      requires Valid()
      modifies mem
      ensures Model() == Write(old(Model()), address, val)
    {
      var a := Addr(address);
      mem[a] := val;
    }

    /** `mem_read(address)`, with `ready` standing for what `check_key()` reports. */
    method MemRead(address: bv16, ready: bool) returns (v: bv16)
      requires Valid()
      modifies this`input, mem
      ensures Valid()
      ensures (Model(), v) == Read(old(Model()), address, ready)
    {
      if address == MR_KBSR {
        if ready {
          mem[Addr(MR_KBSR)] := 0x8000;
          var ch := GetChar();
          mem[Addr(MR_KBDR)] := ch;
        } else {
          mem[Addr(MR_KBSR)] := 0;
        }
      }
      var a := Addr(address);
      v := mem[a];
    }

    /** The bytes TRAP PUTS writes: walks memory from `address` up to the first zero cell. */
    method Puts(address: bv16) returns (bytes: seq<bv8>)
      requires Valid()
      ensures bytes == PutsBytes(mem[..], Addr(address))
    {
      var c := Addr(address);
      bytes := [];
      while c < mem.Length && mem[c] != 0
        invariant Addr(address) <= c <= mem.Length
        invariant bytes + PutsBytes(mem[..], c) == PutsBytes(mem[..], Addr(address))
        decreases mem.Length - c
      {
        bytes := bytes + [LowByte(mem[c])];
        c := c + 1;
      }
    }

    /**
     * The bytes TRAP PUTSP writes: per cell, the low byte and then the high
     * byte unless it is zero (`PackedChars`), up to the first zero cell.
     */
    method Putsp(address: bv16) returns (bytes: seq<bv8>)
      requires Valid()
      ensures bytes == PutspBytes(mem[..], Addr(address))
    {
      var c := Addr(address);
      bytes := [];
      while c < mem.Length && mem[c] != 0
        invariant Addr(address) <= c <= mem.Length
        invariant bytes + PutspBytes(mem[..], c) == PutspBytes(mem[..], Addr(address))
        decreases mem.Length - c
      {
        bytes := bytes + PackedChars(mem[c]);
        c := c + 1;
      }
    }

    /** ADD, AND and NOT, the cases of the opcode switch that compute into a register. */
    method ExecuteOperate(instr: bv16)
      requires Valid()
      modifies reg
      ensures Model() == Operate(old(Model()), instr)
    {
      var r0 := Reg9(instr);
      reg[r0] := OperateResult(instr, reg[Reg6(instr)], reg[Reg0(instr)]);
      UpdateFlags(r0);
    }

    /** BR, JMP and JSR/JSRR, the cases of the opcode switch that change PC. */
    method ExecuteControl(instr: bv16)
      requires Valid()
      modifies reg
      ensures Model() == Control(old(Model()), instr)
    {
      var op := instr >> 12;
      if op == OP_BR {
        reg[R_PC] := BranchTarget(instr, reg[R_PC], reg[R_COND]);
      } else if op == OP_JMP {
        reg[R_PC] := reg[Reg6(instr)];
      } else {
        reg[R_R7] := reg[R_PC];
        reg[R_PC] := SubroutineTarget(instr, reg[R_PC], reg[Reg6(instr)]);
      }
    }

    /** The memory reads of LD, LDI and LDR, or the address LEA computes. */
    method LoadValue(instr: bv16, ready: nat -> bool) returns (v: bv16)
      requires Valid()
      modifies this`input, mem
      ensures Valid()
      ensures (Model(), v) == Semantics.LoadValue(old(Model()), instr, ready)
    {
      var op := instr >> 12;
      if op == OP_LD {
        v := MemRead(PcRelative(instr, reg[R_PC]), ready(1));
      } else if op == OP_LDI {
        var a := MemRead(PcRelative(instr, reg[R_PC]), ready(1));
        v := MemRead(a, ready(2));
      } else if op == OP_LDR {
        v := MemRead(BaseRelative(instr, reg[Reg6(instr)]), ready(1));
      } else {
        v := PcRelative(instr, reg[R_PC]);
      }
    }

    /** LD, LDI, LDR and LEA. */
    method ExecuteLoad(instr: bv16, ready: nat -> bool)
      requires Valid()
      modifies this`input, reg, mem
      ensures Valid()
      ensures Model() == Load(old(Model()), instr, ready)
    {
      var r0 := Reg9(instr);
      var v := LoadValue(instr, ready);
      reg[r0] := v;
      UpdateFlags(r0);
    }

    /** ST, STI and STR. */
    method ExecuteStore(instr: bv16, ready: nat -> bool)
      requires Valid()
      modifies this`input, mem
      ensures Valid()
      ensures Model() == Store(old(Model()), instr, ready)
    {
      var op := instr >> 12;
      if op == OP_ST {
        MemWrite(PcRelative(instr, reg[R_PC]), reg[Reg9(instr)]);
      } else if op == OP_STI {
        var a := MemRead(PcRelative(instr, reg[R_PC]), ready(1));
        MemWrite(a, reg[Reg9(instr)]);
      } else {
        MemWrite(BaseRelative(instr, reg[Reg6(instr)]), reg[Reg9(instr)]);
      }
    }

    /** The TRAP routines; an unknown vector does nothing. */
    method ExecuteTrap(vector: bv16) returns (outcome: Outcome)
      requires Valid()
      modifies this`input, this`output, reg
      ensures Valid()
      ensures Transition(outcome, Model()) == Trap(old(Model()), vector)
    {
      outcome := Running;
      if vector == TRAP_GETC {
        var ch := GetChar();
        reg[R_R0] := ch;
      } else if vector == TRAP_OUT {
        output := output + [LowByte(reg[R_R0])];
      } else if vector == TRAP_PUTS {
        var bytes := Puts(reg[R_R0]);
        output := output + bytes;
      } else if vector == TRAP_IN {
        output := output + IN_PROMPT;
        var ch := GetChar();
        reg[R_R0] := ch;
        output := output + [LowByte(reg[R_R0])];
      } else if vector == TRAP_PUTSP {
        var bytes := Putsp(reg[R_R0]);
        output := output + bytes;
      } else if vector == TRAP_HALT {
        output := output + HALT_NOTICE;
        outcome := Halted;
      }
    }

    /** Reads the instruction at PC and advances PC past it. */
    method Fetch(ready: bool) returns (instr: bv16)
      requires Valid()
      modifies this`input, reg, mem
      ensures Valid()
      ensures (Model(), instr) == Semantics.Fetch(old(Model()), ready)
    {
      var pc := reg[R_PC];
      reg[R_PC] := pc + 1;
      instr := MemRead(pc, ready);
    }

    /**
     * One cycle of the `while (running)` loop: fetch, advance PC, decode,
     * execute. Returns Halted after TRAP HALT and Fault for RES and RTI.
     */
    method Step(ready: nat -> bool) returns (outcome: Outcome)
      requires Valid()
      modifies this`input, this`output, reg, mem
      ensures Valid()
      ensures Transition(outcome, Model()) == Next(old(Model()), ready)
    {
      var instr := Fetch(ready(0));
      var op := instr >> 12;
      outcome := Running;
      if op == OP_ADD || op == OP_AND || op == OP_NOT {
        ExecuteOperate(instr);
      } else if op == OP_BR || op == OP_JMP || op == OP_JSR {
        ExecuteControl(instr);
      } else if op == OP_LD || op == OP_LDI || op == OP_LDR || op == OP_LEA {
        ExecuteLoad(instr, ready);
      } else if op == OP_ST || op == OP_STI || op == OP_STR {
        ExecuteStore(instr, ready);
      } else if op == OP_TRAP {
        outcome := ExecuteTrap(instr & 0xFF);
      } else {
        // OP_RES and OP_RTI: abort()
        outcome := Fault;
      }
    }

    /**
     * The `while (running)` loop, cut off after `fuel` cycles: stops at the
     * first cycle that halts or faults. Cycle `k` polls the keyboard through
     * `ready(k)`.
     */
    method Run(fuel: nat, ready: nat -> nat -> bool) returns (outcome: Outcome)
      requires Valid()
      modifies this`input, this`output, reg, mem
      ensures Valid()
      ensures Transition(outcome, Model()) == RunFrom(old(Model()), fuel, ready, 0)
    {
      var cycle, left := 0, fuel;
      outcome := Running;
      while left > 0 && outcome == Running
        invariant Valid()
        invariant outcome == Running ==> RunFrom(old(Model()), fuel, ready, 0) == RunFrom(Model(), left, ready, cycle)
        invariant outcome != Running ==> RunFrom(old(Model()), fuel, ready, 0) == Transition(outcome, Model())
      {
        ghost var before := Model();
        outcome := Step(ready(cycle));
        RunFromCycle(before, left, ready, cycle, Transition(outcome, Model()));
        cycle, left := cycle + 1, left - 1;
      }
    }
  }
}
