/** The Bus (EmuCore/Bus.cs), the CPU (EmuCore/CPU.cs) and the handler
    lambdas of EmuCore/InstructionsetFactory.cs as objects that change in
    place. Bus and CPU refer to each other, so they share one module.
    Every state change is proved to be the one the Semantics module
    defines. */
module Machine {
  import opened Bits
  import opened Errors
  import opened RegisterFile
  import opened Memory
  import I = Instructions
  import S = Semantics

  /** The state a handler reads and writes: a register file and a bus's
      memory. */
  ghost function Snapshot(registers: Registers, memory: array<u8>): S.State
    reads registers, registers.GP, memory
  {
    S.State(registers.PC, registers.SP, registers.GP[..], registers.FLAGS, memory[..])
  }

  /** An operation that either finished with the state `next` or raised a
      fault and left the state as it was. */
  ghost predicate Follows(expected: Result<S.State>, o: Outcome, before: S.State, after: S.State)
  {
    match expected
    case Ok(next) => o == Pass && after == next
    case Err(e) => o == Fail(e) && after == before
  }

  class Bus {
    /** byte[MEMORY_SIZE_BYTES]: the reference never changes, its bytes do. */
    const memory: array<u8>
    var Cycles: i32
    const cpu: CPU

    ghost predicate Valid()
      reads this, cpu, cpu.registers
    {
      memory.Length == MEMORY_SIZE_BYTES && cpu.Valid()
    }

    /** new Bus(cpu): all memory zero, no cycle run yet. */
    constructor (cpu: CPU)
      requires cpu.Valid()
      ensures Valid() && this.cpu == cpu
      ensures fresh(memory) && memory[..] == Zeroed() && Cycles == 0
    {
      memory := new u8[MEMORY_SIZE_BYTES](_ => 0);
      Cycles := 0;
      this.cpu := cpu;
      new;
      assert memory[..] == Zeroed();
    }

    /** One CPU step; the counter moves on only when the step returns
        normally, since a fault propagates out of _cpu.Step() first. */
    method ExecuteCycle() returns (o: Outcome)
      requires Valid()
      modifies this, cpu.StepFrame()
      ensures Valid() && cpu.bus == old(cpu.bus)
      ensures o == Pass ==> Cycles == Increment32(old(Cycles))
      ensures o != Pass ==> Cycles == old(Cycles)
      ensures old(cpu.bus) == null ==>
                o == Fail(NullReferenceException) && unchanged(cpu.registers, cpu.registers.GP)
      ensures old(cpu.bus) != null ==>
                (Snapshot(cpu.registers, cpu.bus.memory), o) == S.Step(old(Snapshot(cpu.registers, cpu.bus.memory)))
    {
      o := cpu.Step();
      if o == Pass {
        Cycles := Increment32(Cycles);
      }
    }

    /** FillMemory(bytes, startAddress). */
    method FillMemory(bytes: seq<u8>, startAddress: u16) returns (o: Outcome)
      requires memory.Length == MEMORY_SIZE_BYTES
      modifies memory
      ensures match Fill(old(memory[..]), bytes, startAddress)
              case Ok(m) => o == Pass && memory[..] == m
              case Err(e) => o == Fail(e) && memory[..] == old(memory[..])
    {
      if |bytes| + startAddress > MEMORY_SIZE_BYTES {
        return Fail(ArgumentException);
      }
      forall i | 0 <= i < |bytes| {
        memory[startAddress + i] := bytes[i];
      }
      o := Pass;
      assert memory[..] == Fill(old(memory[..]), bytes, startAddress).value;
    }

    /** Read(address): ReadInt32LittleEndian of the four-byte slice. */
    method Read(address: u16) returns (r: Result<i32>)
      requires memory.Length == MEMORY_SIZE_BYTES
      ensures r == Memory.Read(memory[..], address)
    {
      if address as int + 4 > memory.Length {
        return Err(ArgumentOutOfRangeException);
      }
      var slice := memory[address..address + 4];
      r := Ok(ReadInt32LE(slice, 0));
    }

    /** Read16(address): ReadInt16LittleEndian of the two-byte slice. */
    method Read16(address: u16) returns (r: Result<i16>)
      requires memory.Length == MEMORY_SIZE_BYTES
      ensures r == Memory.Read16(memory[..], address)
    {
      if address as int + 2 > memory.Length {
        return Err(ArgumentOutOfRangeException);
      }
      var slice := memory[address..address + 2];
      r := Ok(ReadInt16LE(slice, 0));
    }

    /** Write(address, value): Array.Copy of GetBytes(value) to address. */
    method Write(address: u16, value: i16) returns (o: Outcome)
      requires memory.Length == MEMORY_SIZE_BYTES
      modifies memory
      ensures match Memory.Write(old(memory[..]), address, value)
              case Ok(m) => o == Pass && memory[..] == m
              case Err(e) => o == Fail(e) && memory[..] == old(memory[..])
    {
      var bytes := GetBytes16(value);
      if address as int + |bytes| > memory.Length {
        return Fail(ArgumentException);
      }
      memory[address] := bytes[0];
      memory[address + 1] := bytes[1];
      o := Pass;
    }
  }

  class CPU {
    const registers: Registers
    /** The dispatch table, built once by the constructor. */
    const actions: map<u8, I.Handler>
    /** The Bus property; null until the system wires one in. */
    var bus: Bus?

    ghost predicate Valid()
      reads this, registers
    {
      registers.GP.Length == GP_COUNT && actions == I.Instructionset() &&
      (bus != null ==> bus.memory.Length == MEMORY_SIZE_BYTES)
    }

    /** Everything a step may change. */
    ghost function StepFrame(): set<object>
      reads this
    {
      {registers, registers.GP} + (if bus == null then {} else {bus.memory})
    }

    constructor ()
      ensures Valid() && bus == null
      ensures fresh(registers) && fresh(registers.GP)
      ensures registers.PC == S.Initial().pc && registers.SP == S.Initial().sp
      ensures registers.GP[..] == S.Initial().gp && registers.FLAGS == S.Initial().flags
    {
      registers := new Registers();
      actions := I.Instructionset();
      bus := null;
      new;
      assert registers.GP[..] == S.Initial().gp;
    }

    /** The Bus property setter. */
    method SetBus(b: Bus?)
      requires Valid() && (b != null ==> b.memory.Length == MEMORY_SIZE_BYTES)
      modifies this
      ensures Valid() && bus == b
    {
      bus := b;
    }

    /** Step(): Fetch, Decode, Execute. */
    method Step() returns (o: Outcome)
      requires Valid()
      modifies StepFrame()
      ensures Valid() && bus == old(bus)
      ensures old(bus) == null ==> o == Fail(NullReferenceException) && unchanged(registers, registers.GP)
      ensures old(bus) != null ==>
                (Snapshot(registers, bus.memory), o) == S.Step(old(Snapshot(registers, bus.memory)))
    {
      if bus == null {
        return Fail(NullReferenceException);
      }
      ghost var before := Snapshot(registers, bus.memory);
      var fullOpcode := Fetch();
      if fullOpcode.Err? {
        return Fail(fullOpcode.fault);
      }
      var decoded := I.Decode(actions, fullOpcode.value);
      if decoded.Err? {
        return Fail(decoded.fault);
      }
      ghost var fetched := Snapshot(registers, bus.memory);
      assert fetched == before.(pc := Wrap16(before.pc + 4));
      o := Execute(decoded.value.0, decoded.value.1, registers, bus);
    }

    /** Fetch(): the word at PC, then IncrementPC; a failed read leaves PC. */
    method Fetch() returns (r: Result<i32>)
      requires Valid() && bus != null
      modifies registers
      ensures r == Memory.Read(bus.memory[..], old(registers.PC))
      ensures r.Ok? ==> registers.PC == Wrap16(old(registers.PC) + 4)
      ensures r.Err? ==> registers.PC == old(registers.PC)
      ensures registers.SP == old(registers.SP) && registers.FLAGS == old(registers.FLAGS)
    {
      r := bus.Read(registers.PC);
      if r.Ok? {
        registers.IncrementPC();
      }
    }
  }

  // ----- The handler lambdas, each proved against its Semantics function -----

  /** operation(instruction, _registers, Bus): the handler the table entry names. */
  method Execute(h: I.Handler, instruction: I.Instruction, registers: Registers, bus: Bus) returns (o: Outcome)
    requires registers.GP.Length == GP_COUNT && bus.memory.Length == MEMORY_SIZE_BYTES
    modifies registers, registers.GP, bus.memory
    ensures Follows(S.Execute(h, instruction, old(Snapshot(registers, bus.memory))), o,
                    old(Snapshot(registers, bus.memory)), Snapshot(registers, bus.memory))
  {
    match h
    case Nop => o := Nop(instruction, registers, bus);
    case Jmp => o := Jmp(instruction, registers, bus);
    case J => o := J(instruction, registers, bus);
    case Call => o := Call(instruction, registers, bus);
    case Ldi => o := Ldi(instruction, registers, bus);
    case Ldm => o := Ldm(instruction, registers, bus);
    case Stm => o := Stm(instruction, registers, bus);
    case Mov => o := Mov(instruction, registers, bus);
    case Tsti => o := Tsti(instruction, registers, bus);
    case Xor => o := Xor(instruction, registers, bus);
  }

  method Nop(instruction: I.Instruction, registers: Registers, bus: Bus) returns (o: Outcome)
    ensures Follows(S.ExecNop(instruction, old(Snapshot(registers, bus.memory))), o,
                    old(Snapshot(registers, bus.memory)), Snapshot(registers, bus.memory))
  {
    o := Pass;
  }

  method Jmp(instruction: I.Instruction, registers: Registers, bus: Bus) returns (o: Outcome)
    modifies registers
    ensures Follows(S.ExecJmp(instruction, old(Snapshot(registers, bus.memory))), o,
                    old(Snapshot(registers, bus.memory)), Snapshot(registers, bus.memory))
  {
    var address := I.Address(instruction);
    registers.PC := address;
    o := Pass;
  }

  method Ldi(instruction: I.Instruction, registers: Registers, bus: Bus) returns (o: Outcome)
    requires registers.GP.Length == GP_COUNT && bus.memory.Length == MEMORY_SIZE_BYTES
    modifies registers.GP
    ensures Follows(S.ExecLdi(instruction, old(Snapshot(registers, bus.memory))), o,
                    old(Snapshot(registers, bus.memory)), Snapshot(registers, bus.memory))
  {
    var register := instruction.parameters[0];
    var value := I.Immediate(instruction);
    if register as int >= registers.GP.Length {
      return Fail(IndexOutOfRangeException);
    }
    registers.GP[register] := value;
    o := Pass;
  }

  method Stm(instruction: I.Instruction, registers: Registers, bus: Bus) returns (o: Outcome)
    requires registers.GP.Length == GP_COUNT && bus.memory.Length == MEMORY_SIZE_BYTES
    modifies bus.memory
    ensures Follows(S.ExecStm(instruction, old(Snapshot(registers, bus.memory))), o,
                    old(Snapshot(registers, bus.memory)), Snapshot(registers, bus.memory))
  {
    var register := instruction.parameters[0];
    if register as int >= registers.GP.Length {
      return Fail(IndexOutOfRangeException);
    }
    var value := registers.GP[register];
    var address := I.Address(instruction);
    o := bus.Write(address, value);
  }

  method Ldm(instruction: I.Instruction, registers: Registers, bus: Bus) returns (o: Outcome)
    requires registers.GP.Length == GP_COUNT && bus.memory.Length == MEMORY_SIZE_BYTES
    modifies registers.GP
    ensures Follows(S.ExecLdm(instruction, old(Snapshot(registers, bus.memory))), o,
                    old(Snapshot(registers, bus.memory)), Snapshot(registers, bus.memory))
  {
    var register := instruction.parameters[0];
    var address := I.Address(instruction);
    var value := bus.Read16(address);
    if value.Err? {
      return Fail(value.fault);
    }
    if register as int >= registers.GP.Length {
      return Fail(IndexOutOfRangeException);
    }
    registers.GP[register] := value.value;
    o := Pass;
  }

  method Mov(instruction: I.Instruction, registers: Registers, bus: Bus) returns (o: Outcome)
    requires registers.GP.Length == GP_COUNT && bus.memory.Length == MEMORY_SIZE_BYTES
    modifies registers.GP
    ensures Follows(S.ExecMov(instruction, old(Snapshot(registers, bus.memory))), o,
                    old(Snapshot(registers, bus.memory)), Snapshot(registers, bus.memory))
  {
    var param := instruction.parameters[0];
    var y := HighNibble(param);
    var x := LowNibble(param);
    registers.GP[x] := registers.GP[y];
    o := Pass;
  }

  method Call(instruction: I.Instruction, registers: Registers, bus: Bus) returns (o: Outcome)
    requires registers.GP.Length == GP_COUNT && bus.memory.Length == MEMORY_SIZE_BYTES
    modifies registers, bus.memory
    ensures Follows(S.ExecCall(instruction, old(Snapshot(registers, bus.memory))), o,
                    old(Snapshot(registers, bus.memory)), Snapshot(registers, bus.memory))
  {
    o := bus.Write(registers.SP, AsShort(registers.PC));
    if o != Pass {
      return;
    }
    registers.IncrementSP();
    var value := I.Address(instruction);
    registers.PC := value;
  }

  method Tsti(instruction: I.Instruction, registers: Registers, bus: Bus) returns (o: Outcome)
    requires registers.GP.Length == GP_COUNT && bus.memory.Length == MEMORY_SIZE_BYTES
    modifies registers
    ensures Follows(S.ExecTsti(instruction, old(Snapshot(registers, bus.memory))), o,
                    old(Snapshot(registers, bus.memory)), Snapshot(registers, bus.memory))
  {
    var registerIndex := instruction.parameters[0];
    var immediateValue := I.Immediate(instruction);
    if registerIndex as int >= registers.GP.Length {
      return Fail(IndexOutOfRangeException);
    }
    var result := And16(registers.GP[registerIndex], immediateValue);
    registers.SetZeroFlag(result == 0);
    registers.SetNegativeFlag(result < 0);
    o := Pass;
  }

  method J(instruction: I.Instruction, registers: Registers, bus: Bus) returns (o: Outcome)
    modifies registers
    ensures Follows(S.ExecJ(instruction, old(Snapshot(registers, bus.memory))), o,
                    old(Snapshot(registers, bus.memory)), Snapshot(registers, bus.memory))
  {
    if instruction.parameters[0] != 0 {
      var address := I.Address(instruction);
      registers.PC := address;
    }
    o := Pass;
  }

  method Xor(instruction: I.Instruction, registers: Registers, bus: Bus) returns (o: Outcome)
    requires registers.GP.Length == GP_COUNT && bus.memory.Length == MEMORY_SIZE_BYTES
    modifies registers, registers.GP
    ensures Follows(S.ExecXor(instruction, old(Snapshot(registers, bus.memory))), o,
                    old(Snapshot(registers, bus.memory)), Snapshot(registers, bus.memory))
  {
    var x := LowNibble(instruction.parameters[0]);
    var y := HighNibble(instruction.parameters[0]);
    registers.GP[x] := Xor16(registers.GP[x], registers.GP[y]);
    registers.SetZeroFlag(registers.GP[x] == 0);
    registers.SetNegativeFlag(registers.GP[x] < 0);
    o := Pass;
  }
}
