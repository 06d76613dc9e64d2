/** What one instruction does to the machine, as a function from the state
    before to the state after: the ten handler lambdas of
    EmuCore/InstructionsetFactory.cs and CPU.Step (fetch, decode, execute)
    of EmuCore/CPU.cs. The imperative Registers/Bus/CPU objects are proved
    to follow these definitions. */
module Semantics {
  import opened Bits
  import opened Errors
  import opened RegisterFile
  import opened Memory
  import Opcodes
  import I = Instructions

  /** Everything a handler can read or change: the register file and the
      Bus memory. */
  datatype State = State(pc: u16, sp: u16, gp: seq<i16>, flags: bv8, mem: seq<u8>)

  predicate WellFormed(s: State)
  {
    |s.gp| == GP_COUNT && |s.mem| == MEMORY_SIZE_BYTES
  }

  /** A new Registers object beside the memory of a new Bus: every
      register, every reserved FLAGS bit and every byte is zero, except
      the stack pointer. */
  function Initial(): (s: State)
    ensures WellFormed(s)
    ensures s.pc == 0 && s.sp == 0xFDF0 && s.flags == 0
    ensures forall k :: 0 <= k < |s.gp| ==> s.gp[k] == 0
    ensures forall a :: 0 <= a < |s.mem| ==> s.mem[a] == 0
  {
    State(START_ROM, START_STACK, seq(GP_COUNT, _ => 0), 0, Zeroed())
  }

  // One function per handler. An exception aborts the handler before it
  // changes anything, so an Err carries no state. Each contract says
  // which register, flag or byte the handler changes and to what, and
  // that everything else stays.

  function ExecNop(inst: I.Instruction, s: State): Result<State>
  {
    Ok(s)
  }

  /** JMP only sets PC, to the little-endian u16 of parameters 1 and 2. */
  function ExecJmp(inst: I.Instruction, s: State): (r: Result<State>)
    ensures r.Ok?
    ensures r.value.pc == inst.parameters[1] as int + 0x100 * inst.parameters[2] as int
    ensures r.value.(pc := s.pc) == s
  {
    Ok(s.(pc := I.Address(inst)))
  }

  /** LDI with a register byte below 16 loads the immediate (whose u16
      pattern is parameters 1 and 2) into that register only; a larger
      register byte indexes past GP. */
  function ExecLdi(inst: I.Instruction, s: State): (r: Result<State>)
    requires WellFormed(s)
    ensures r.Ok? <==> inst.parameters[0] < 16
    ensures r.Err? ==> r.fault == IndexOutOfRangeException
    ensures r.Ok? ==> WellFormed(r.value)
    ensures r.Ok? ==>
              var k0 := inst.parameters[0] as int;
              AsUshort(r.value.gp[k0]) == inst.parameters[1] as int + 0x100 * inst.parameters[2] as int &&
              (forall k :: 0 <= k < 16 && k != k0 ==> r.value.gp[k] == s.gp[k]) &&
              r.value.(gp := s.gp) == s
  {
    var register := inst.parameters[0];
    if register as int >= GP_COUNT then Err(IndexOutOfRangeException)
    else Ok(s.(gp := s.gp[register := I.Immediate(inst)]))
  }

  /** STM: the register is read before the bus write. Afterwards Read16 at
      the immediate address finds the register's value; no register and
      no other byte changes. */
  function ExecStm(inst: I.Instruction, s: State): (r: Result<State>)
    requires WellFormed(s)
    ensures r.Ok? <==> inst.parameters[0] < 16 && I.Address(inst) <= 0xFFFE
    ensures r.Err? ==>
              r.fault == if inst.parameters[0] >= 16 then IndexOutOfRangeException else ArgumentException
    ensures r.Ok? ==>
              var a := I.Address(inst);
              WellFormed(r.value) &&
              Read16(r.value.mem, a) == Ok(s.gp[inst.parameters[0]]) &&
              (forall b :: 0 <= b < MEMORY_SIZE_BYTES && b != a && b != a + 1 ==> r.value.mem[b] == s.mem[b]) &&
              r.value.(mem := s.mem) == s
  {
    var register := inst.parameters[0];
    if register as int >= GP_COUNT then Err(IndexOutOfRangeException)
    else
      match Write(s.mem, I.Address(inst), s.gp[register])
      case Err(e) => Err(e)
      case Ok(m) =>
        WriteThenRead16(s.mem, I.Address(inst), s.gp[register]);
        Ok(s.(mem := m))
  }

  /** LDM: the bus read comes before the register store. The short Read16
      finds at the immediate address goes into that register only. */
  function ExecLdm(inst: I.Instruction, s: State): (r: Result<State>)
    requires WellFormed(s)
    ensures r.Ok? <==> I.Address(inst) <= 0xFFFE && inst.parameters[0] < 16
    ensures r.Err? ==>
              r.fault == if I.Address(inst) == 0xFFFF then ArgumentOutOfRangeException else IndexOutOfRangeException
    ensures r.Ok? ==>
              var k0 := inst.parameters[0] as int;
              WellFormed(r.value) &&
              Ok(r.value.gp[k0]) == Read16(s.mem, I.Address(inst)) &&
              (forall k :: 0 <= k < 16 && k != k0 ==> r.value.gp[k] == s.gp[k]) &&
              r.value.(gp := s.gp) == s
  {
    var register := inst.parameters[0];
    match Read16(s.mem, I.Address(inst))
    case Err(e) => Err(e)
    case Ok(value) =>
      if register as int >= GP_COUNT then Err(IndexOutOfRangeException)
      else Ok(s.(gp := s.gp[register := value]))
  }

  /** MOV: source register in the high nibble, destination in the low one;
      nothing but the destination changes. */
  function ExecMov(inst: I.Instruction, s: State): (r: Result<State>)
    requires WellFormed(s)
    ensures r.Ok? && WellFormed(r.value)
    ensures var x := inst.parameters[0] as int % 16; var y := inst.parameters[0] as int / 16;
            r.value.gp[x] == s.gp[y] &&
            (forall k :: 0 <= k < 16 && k != x ==> r.value.gp[k] == s.gp[k]) &&
            r.value.(gp := s.gp) == s
  {
    var y := HighNibble(inst.parameters[0]);
    var x := LowNibble(inst.parameters[0]);
    Ok(s.(gp := s.gp[x := s.gp[y]]))
  }

  /** CALL: push (short)PC at SP, IncrementSP, jump. With SP below 0xFFFF
      the pattern of PC is readable at the old SP, SP moves up by two
      (so SP - 2 finds it again) and PC becomes the immediate; at 0xFFFF
      the write runs off the end of memory. */
  function ExecCall(inst: I.Instruction, s: State): (r: Result<State>)
    requires WellFormed(s)
    ensures r.Ok? <==> s.sp <= 0xFFFE
    ensures r.Err? ==> r.fault == ArgumentException
    ensures r.Ok? ==>
              var n := r.value;
              WellFormed(n) &&
              Read16(n.mem, s.sp) == Ok(AsShort(s.pc)) &&
              AsUshort(AsShort(s.pc)) == s.pc &&
              n.sp == Wrap16(s.sp + 2) && Wrap16(n.sp - 2) == s.sp &&
              n.pc == I.Address(inst) &&
              n.gp == s.gp && n.flags == s.flags &&
              (forall a :: 0 <= a < MEMORY_SIZE_BYTES && a != s.sp && a != s.sp + 1 ==> n.mem[a] == s.mem[a])
  {
    match Write(s.mem, s.sp, AsShort(s.pc))
    case Err(e) => Err(e)
    case Ok(m) =>
      WriteThenRead16(s.mem, s.sp, AsShort(s.pc));
      ShortPatternRoundTrip(0, s.pc);
      Ok(s.(mem := m, sp := Wrap16(s.sp + 2), pc := I.Address(inst)))
  }

  /** TSTI: the AND is computed in C# int, which for two sign-extended
      shorts is the sign extension of the 16-bit AND; SetZeroFlag comes
      before SetNegativeFlag. Zero is set exactly when the AND is zero,
      Negative exactly when both operands are negative; nothing but those
      two flags changes. */
  function ExecTsti(inst: I.Instruction, s: State): (r: Result<State>)
    requires WellFormed(s)
    ensures r.Ok? <==> inst.parameters[0] < 16
    ensures r.Err? ==> r.fault == IndexOutOfRangeException
    ensures r.Ok? ==>
              var n := r.value; var v := s.gp[inst.parameters[0]]; var imm := I.Immediate(inst);
              (n.flags & ZERO != 0 <==> And16(v, imm) == 0) &&
              (n.flags & NEGATIVE != 0 <==> v < 0 && imm < 0) &&
              n.flags & !(ZERO | NEGATIVE) == s.flags & !(ZERO | NEGATIVE) &&
              n.(flags := s.flags) == s
  {
    var register := inst.parameters[0];
    if register as int >= GP_COUNT then Err(IndexOutOfRangeException)
    else
      var result := And16(s.gp[register], I.Immediate(inst));
      TwoFlagWrites(s.flags, result == 0, result < 0);
      Ok(s.(flags := WithFlag(WithFlag(s.flags, ZERO, result == 0), NEGATIVE, result < 0)))
  }

  /** J: jump like JMP when parameter 0 is non-zero, otherwise change
      nothing. */
  function ExecJ(inst: I.Instruction, s: State): (r: Result<State>)
    ensures r.Ok?
    ensures inst.parameters[0] != 0 ==> r.value.pc == inst.parameters[1] as int + 0x100 * inst.parameters[2] as int
    ensures inst.parameters[0] == 0 ==> r.value == s
    ensures r.value.(pc := s.pc) == s
  {
    if inst.parameters[0] != 0 then Ok(s.(pc := I.Address(inst))) else Ok(s)
  }

  /** XOR: destination x in the low nibble, y in the high one; the int XOR
      is truncated back to a short, then both flags are taken from GP[x].
      Zero is set exactly when the two registers were equal and Negative
      exactly when their signs differ; Carry, Overflow and the other
      registers stay. */
  function ExecXor(inst: I.Instruction, s: State): (r: Result<State>)
    requires WellFormed(s)
    ensures r.Ok? && WellFormed(r.value)
    ensures var n := r.value;
            var x := inst.parameters[0] as int % 16; var y := inst.parameters[0] as int / 16;
            n.gp[x] == Xor16(s.gp[x], s.gp[y]) &&
            (n.flags & ZERO != 0 <==> s.gp[x] == s.gp[y]) &&
            (n.flags & NEGATIVE != 0 <==> (s.gp[x] < 0) != (s.gp[y] < 0)) &&
            n.flags & !(ZERO | NEGATIVE) == s.flags & !(ZERO | NEGATIVE) &&
            (forall k :: 0 <= k < 16 && k != x ==> n.gp[k] == s.gp[k]) &&
            n.(gp := s.gp, flags := s.flags) == s
  {
    var x := LowNibble(inst.parameters[0]);
    var y := HighNibble(inst.parameters[0]);
    var result := Xor16(s.gp[x], s.gp[y]);
    TwoFlagWrites(s.flags, result == 0, result < 0);
    Ok(s.(gp := s.gp[x := result],
          flags := WithFlag(WithFlag(s.flags, ZERO, result == 0), NEGATIVE, result < 0)))
  }

  /** Running the handler a table entry refers to. No handler changes the
      shape of the state or a reserved FLAGS bit. */
  function Execute(h: I.Handler, inst: I.Instruction, s: State): (r: Result<State>)
    requires WellFormed(s)
    ensures r.Ok? ==> WellFormed(r.value)
    ensures r.Ok? ==> r.value.flags & RESERVED == s.flags & RESERVED
  {
    match h
    case Nop => ExecNop(inst, s)
    case Jmp => ExecJmp(inst, s)
    case J => ExecJ(inst, s)
    case Call => ExecCall(inst, s)
    case Ldi => ExecLdi(inst, s)
    case Ldm => ExecLdm(inst, s)
    case Stm => ExecStm(inst, s)
    case Mov => ExecMov(inst, s)
    case Tsti =>
      TwoFlagWritesKeepReserved(s.flags);
      ExecTsti(inst, s)
    case Xor =>
      TwoFlagWritesKeepReserved(s.flags);
      ExecXor(inst, s)
  }

  lemma TwoFlagWritesKeepReserved(flags: bv8)
    ensures forall z: bool, n: bool {:trigger WithFlag(WithFlag(flags, ZERO, z), NEGATIVE, n)} ::
      WithFlag(WithFlag(flags, ZERO, z), NEGATIVE, n) & RESERVED == flags & RESERVED
  {
    forall z: bool, n: bool
      ensures WithFlag(WithFlag(flags, ZERO, z), NEGATIVE, n) & RESERVED == flags & RESERVED
    {
      ReservedUntouched(flags, ZERO, z);
      ReservedUntouched(WithFlag(flags, ZERO, z), NEGATIVE, n);
    }
  }

  /** The exception a handler raises, if any, read off its operands alone:
      a register byte of 16 or more indexes past GP, a 16-bit access at
      0xFFFF runs past the end of memory. */
  function ExpectedFault(h: I.Handler, inst: I.Instruction, s: State): Option<Fault>
  {
    var register := inst.parameters[0];
    var address := I.Address(inst);
    match h
    case Ldi | Tsti => if register >= 16 then Some(IndexOutOfRangeException) else None
    case Stm =>
      if register >= 16 then Some(IndexOutOfRangeException)
      else if address == 0xFFFF then Some(ArgumentException)
      else None
    case Ldm =>
      if address == 0xFFFF then Some(ArgumentOutOfRangeException)
      else if register >= 16 then Some(IndexOutOfRangeException)
      else None
    case Call => if s.sp == 0xFFFF then Some(ArgumentException) else None
    case Nop | Jmp | J | Mov | Xor => None
  }

  /** A handler fails exactly when its operands say it must, with that
      fault. */
  lemma ExecuteFailsExactly(h: I.Handler, inst: I.Instruction, s: State)
    requires WellFormed(s)
    ensures Execute(h, inst, s).Err? <==> ExpectedFault(h, inst, s).Some?
    ensures Execute(h, inst, s).Err? ==> Execute(h, inst, s).fault == ExpectedFault(h, inst, s).value
  {
  }

  // ----- CPU.Step -----

  /** Fetch (Bus.Read at PC, then IncrementPC), Decode (byte split and table
      lookup), Execute. A fault ends the step where it is raised: a failed
      read leaves even PC alone, a failed lookup or handler leaves PC
      advanced and nothing else changed. */
  function Step(s: State): (r: (State, Outcome))
    requires WellFormed(s)
    ensures WellFormed(r.0)
    ensures r.0.flags & RESERVED == s.flags & RESERVED
  {
    match Read(s.mem, s.pc)
    case Err(e) => (s, Fail(e))
    case Ok(word) =>
      var fetched := s.(pc := Wrap16(s.pc + 4));
      match I.Decode(I.Instructionset(), word)
      case Err(e) => (fetched, Fail(e))
      case Ok(decoded) =>
        match Execute(decoded.0, decoded.1, fetched)
        case Err(e) => (fetched, Fail(e))
        case Ok(next) => (next, Pass)
  }

  /** Above 0xFFFC the four-byte fetch fails and the state is untouched. */
  lemma StepFetchFault(s: State)
    requires WellFormed(s) && s.pc > 0xFFFC
    ensures Step(s) == (s, Fail(ArgumentOutOfRangeException))
  {
  }

  /** An opcode byte at PC without a handler: PC has advanced by four, no
      handler ran, KeyNotFoundException. */
  lemma StepUnknownOpcode(s: State)
    requires WellFormed(s) && s.pc <= 0xFFFC && s.mem[s.pc] !in Opcodes.HANDLED
    ensures Step(s) == (s.(pc := Wrap16(s.pc + 4)), Fail(KeyNotFoundException))
  {
    I.DecodeOfMemoryWord(I.Instructionset(), s.mem, s.pc);
    I.TableDomain(s.mem[s.pc]);
  }

  /** A handled opcode byte at PC (one of Opcodes.HANDLED, by TableDomain):
      its handler runs on mem[PC+1..PC+3] and sees PC already advanced by
      four (wrapping past 0xFFFF). */
  lemma StepRunsHandler(s: State)
    requires WellFormed(s) && s.pc <= 0xFFFC && s.mem[s.pc] in I.Instructionset()
    ensures var fetched := s.(pc := Wrap16(s.pc + 4));
            var inst := I.Instr(s.mem[s.pc], s.mem[s.pc + 1..s.pc + 4]);
            var h := I.Instructionset()[s.mem[s.pc]];
            Step(s) == match Execute(h, inst, fetched)
                       case Ok(next) => (next, Pass)
                       case Err(e) => (fetched, Fail(e))
  {
    I.DecodeOfMemoryWord(I.Instructionset(), s.mem, s.pc);
    I.TableDomain(s.mem[s.pc]);
  }

  /** The handler decides the final PC of a jump: JMP at PC leaves PC at
      the address in the next two bytes, whatever the fetch did. */
  lemma StepJmp(s: State)
    requires WellFormed(s) && s.pc <= 0xFFFC && s.mem[s.pc] == Opcodes.JMP
    ensures Step(s).1 == Pass
    ensures Step(s).0 == s.(pc := s.mem[s.pc + 2] as int + 0x100 * s.mem[s.pc + 3] as int)
  {
    I.CreateInstructionsetSucceeds();
    StepRunsHandler(s);
  }

  /** CALL at PC pushes the address of the instruction after it. */
  lemma StepCallPushesNextInstruction(s: State)
    requires WellFormed(s) && s.pc <= 0xFFFC && s.mem[s.pc] == Opcodes.CALL && s.sp <= 0xFFFE
    ensures Step(s).1 == Pass
    ensures AsUshort(Read16(Step(s).0.mem, s.sp).value) == Wrap16(s.pc + 4)
    ensures Step(s).0.pc == s.mem[s.pc + 2] as int + 0x100 * s.mem[s.pc + 3] as int
  {
    I.CreateInstructionsetSucceeds();
    StepRunsHandler(s);
  }

  /** Up to n cycles of Bus.ExecuteCycle: the state after them, or after
      the first one that faulted, with that fault. */
  function Run(s: State, n: nat): (r: (State, Outcome))
    requires WellFormed(s)
    ensures WellFormed(r.0)
    decreases n
  {
    if n == 0 then (s, Pass)
    else
      var (next, outcome) := Step(s);
      if outcome.Fail? then (next, outcome) else Run(next, n - 1)
  }

  /** The reserved FLAGS bits, zero in a new register file, stay zero
      through any run. */
  lemma {:induction false} RunKeepsReservedZero(s: State, n: nat)
    requires WellFormed(s) && s.flags & RESERVED == 0
    ensures Run(s, n).0.flags & RESERVED == 0
    decreases n
  {
    if n > 0 {
      var (next, outcome) := Step(s);
      if outcome.Pass? {
        RunKeepsReservedZero(next, n - 1);
      }
    }
  }

  /** Hence from power-on. */
  lemma InitialRunKeepsReservedZero(n: nat)
    ensures Run(Initial(), n).0.flags & RESERVED == 0
  {
    RunKeepsReservedZero(Initial(), n);
  }

  // ----- Handlers through the dispatch, and handlers combined -----

  /** NOP changes nothing. */
  lemma NopChangesNothing(inst: I.Instruction, s: State)
    requires WellFormed(s)
    ensures Execute(I.Nop, inst, s) == Ok(s)
  {
  }

  /** J jumps like JMP when parameter 0 is non-zero and otherwise does
      nothing. */
  lemma JJumpsIffNonzero(inst: I.Instruction, s: State)
    requires WellFormed(s)
    ensures Execute(I.J, inst, s) == if inst.parameters[0] != 0 then Execute(I.Jmp, inst, s) else Ok(s)
  {
  }

  /** LDM after STM, both at the same address, moves a register's value
      into another register through memory. */
  lemma {:induction false} StoreThenLoad(store: I.Instruction, load: I.Instruction, s: State)
    requires WellFormed(s) && store.parameters[0] < 16 && load.parameters[0] < 16
    requires I.Address(store) == I.Address(load) <= 0xFFFE
    ensures Execute(I.Stm, store, s).Ok?
    ensures var m := Execute(I.Stm, store, s).value;
            Execute(I.Ldm, load, m).Ok? &&
            Execute(I.Ldm, load, m).value.gp[load.parameters[0]] == s.gp[store.parameters[0]]
  {
  }

  /** The FLAGS value after SetZeroFlag(z) then SetNegativeFlag(n): the two
      bits hold z and n, the six others are as before. */
  lemma TwoFlagWrites(flags: bv8, z: bool, n: bool)
    ensures var f := WithFlag(WithFlag(flags, ZERO, z), NEGATIVE, n);
            (f & ZERO != 0 <==> z) && (f & NEGATIVE != 0 <==> n) &&
            f & !(ZERO | NEGATIVE) == flags & !(ZERO | NEGATIVE)
  {
    var f1 := WithFlag(flags, ZERO, z);
    OtherMaskKept(f1, NEGATIVE, n, ZERO);
    assert f1 & !(ZERO | NEGATIVE) == flags & !(ZERO | NEGATIVE) by {
      OtherMaskKept(flags, ZERO, z, !(ZERO | NEGATIVE));
    }
    OtherMaskKept(f1, NEGATIVE, n, !(ZERO | NEGATIVE));
  }

  /** The same XOR run twice on two different registers restores the
      destination register. */
  lemma {:induction false} XorTwiceRestores(inst: I.Instruction, s: State)
    requires WellFormed(s) && inst.parameters[0] % 16 != inst.parameters[0] / 16
    ensures var n := Execute(I.Xor, inst, Execute(I.Xor, inst, s).value).value;
            n.gp == s.gp
  {
    var x := LowNibble(inst.parameters[0]);
    var y := HighNibble(inst.parameters[0]);
    var once := Execute(I.Xor, inst, s).value;
    XorInvolution(s.gp[x], s.gp[y]);
    var twice := Execute(I.Xor, inst, once).value;
    assert twice.gp[x] == s.gp[x];
    assert forall k :: 0 <= k < 16 ==> twice.gp[k] == s.gp[k];
  }

  /** XOR of a register with itself clears it and sets Zero. */
  lemma XorSelfClears(inst: I.Instruction, s: State)
    requires WellFormed(s) && inst.parameters[0] % 16 == inst.parameters[0] / 16
    ensures var n := Execute(I.Xor, inst, s).value; var x := inst.parameters[0] as int % 16;
            n.gp[x] == 0 && n.flags & ZERO != 0 && n.flags & NEGATIVE == 0
  {
  }

  // ----- The expected values of the instruction tests -----

  lemma HandlerExamples(s: State)
    requires WellFormed(s)
    ensures Execute(I.Jmp, I.Instr(Opcodes.JMP, [0x00, 0xcd, 0xab]), s).value.pc == 0xabcd
    ensures Execute(I.Ldi, I.Instr(Opcodes.LDI, [0x0a, 0xcd, 0xab]), s).value.gp[0xa] == AsShort(0xabcd)
    ensures s.gp[0xa] == AsShort(0xdead) ==>
              Execute(I.Mov, I.Instr(Opcodes.MOV, [0xab, 0, 0]), s).value.gp[0xb] == AsShort(0xdead)
  {
    var ldi := I.Instr(Opcodes.LDI, [0x0a, 0xcd, 0xab]);
    assert AsUshort(I.Immediate(ldi)) == 0xabcd;
    ShortPatternRoundTrip(I.Immediate(ldi), 0xabcd);
  }

  /** J {1, 0xcd, 0xab} jumps to 0xabcd; J {0, 0xcd, 0xab} does not. */
  lemma JExamples(s: State)
    ensures ExecJ(I.Instr(Opcodes.J, [0x01, 0xcd, 0xab]), s).value.pc == 0xabcd
    ensures ExecJ(I.Instr(Opcodes.J, [0x00, 0xcd, 0xab]), s) == Ok(s)
  {
  }

  /** STM {2, 0xcd, 0xab} with GP[2] = (short)0xdead writes 0xdead at
      0xabcd; CALL {0, 0xcd, 0xab} with PC = 0xeeee and SP = 0xff00 writes
      0xeeee at 0xff00, leaves SP = 0xff02 and PC = 0xabcd. */
  lemma MemoryHandlerExamples(s: State)
    requires WellFormed(s)
    ensures s.gp[2] == AsShort(0xdead) ==>
              Read16(Execute(I.Stm, I.Instr(Opcodes.STM, [0x02, 0xcd, 0xab]), s).value.mem, 0xabcd) == Ok(AsShort(0xdead))
    ensures s.pc == 0xeeee && s.sp == 0xff00 ==>
              var n := Execute(I.Call, I.Instr(Opcodes.CALL, [0x00, 0xcd, 0xab]), s).value;
              Read16(n.mem, 0xff00) == Ok(AsShort(0xeeee)) && n.sp == 0xff02 && n.pc == 0xabcd
  {
  }

  /** TSTI on a zero register sets Zero; with GP[0] = -1, the immediate
      0xffff clears it. */
  lemma TstiZeroExamples(s: State)
    requires WellFormed(s)
    ensures s.gp[0xa] == 0 ==>
              Execute(I.Tsti, I.Instr(Opcodes.TSTI, [0x0a, 0x00, 0x00]), s).value.flags & ZERO != 0
    ensures s.gp[0] == -1 ==>
              Execute(I.Tsti, I.Instr(Opcodes.TSTI, [0x00, 0xff, 0xff]), s).value.flags & ZERO == 0
  {
    var t0 := I.Instr(Opcodes.TSTI, [0x0a, 0x00, 0x00]);
    var t1 := I.Instr(Opcodes.TSTI, [0x00, 0xff, 0xff]);
    ShortPatternRoundTrip(I.Immediate(t0), 0);
    ShortPatternRoundTrip(I.Immediate(t1), 0xffff);
  }

  /** With GP[0] = -1, TSTI against 0xf000 sets Negative, against 0x0f00
      it clears it. */
  lemma TstiNegativeExamples(s: State)
    requires WellFormed(s) && s.gp[0] == -1
    ensures Execute(I.Tsti, I.Instr(Opcodes.TSTI, [0x00, 0x00, 0xf0]), s).value.flags & NEGATIVE != 0
    ensures Execute(I.Tsti, I.Instr(Opcodes.TSTI, [0x00, 0x00, 0x0f]), s).value.flags & NEGATIVE == 0
  {
    var t2 := I.Instr(Opcodes.TSTI, [0x00, 0x00, 0xf0]);
    var t3 := I.Instr(Opcodes.TSTI, [0x00, 0x00, 0x0f]);
    ShortPatternRoundTrip(I.Immediate(t2), 0xf000);
    ShortPatternRoundTrip(I.Immediate(t3), 0x0f00);
  }

  /** XOR {0x10} of GP[0] = 0 with GP[1] = -1 gives -1 with Negative set
      and Zero clear; of two zeros, 0 with Zero set. */
  lemma XorExamples(s: State)
    requires WellFormed(s) && s.gp[0] == 0
    ensures s.gp[1] == -1 ==>
              var n := Execute(I.Xor, I.Instr(Opcodes.XOR, [0x10, 0, 0]), s).value;
              n.gp[0] == -1 && n.flags & ZERO == 0 && n.flags & NEGATIVE != 0
    ensures s.gp[1] == 0 ==>
              var n := Execute(I.Xor, I.Instr(Opcodes.XOR, [0x10, 0, 0]), s).value;
              n.gp[0] == 0 && n.flags & ZERO != 0 && n.flags & NEGATIVE == 0
  {
    XorZeroUnit(-1);
  }
}
