# Chip16 emulator core in Dafny

This project models the fetch-decode-execute core of the Chip16 emulator
(`EmuCore`). It covers:

- the register file: PC, SP, sixteen signed registers and FLAGS;
- the 64 KiB memory bus with its bounds-checked fill, reads and writes;
- the CPU step: fetch a little-endian word at PC, advance PC by four, split
  the word into an opcode and three parameter bytes, look the opcode up;
- the dispatch table with its ten handlers (NOP, JMP, J, CALL, LDI, LDM,
  STM, MOV, TSTI, XOR);
- the opcode constants;
- the ROM header parser.

Modules:

- `Bits` (bits.dfy): the C# integer types as ranges of `int`, and
  little-endian encoding and decoding. It also defines `(short)(a ^ b)` and
  `a & b`, bit by bit. The host is taken to be little-endian.
- `Errors` (errors.dfy): each .NET exception the core can throw becomes a
  `Fault`. An operation that can throw returns a `Result` or an `Outcome`.
- `RegisterFile` (registers.dfy): the `Registers` class and the pure
  `WithFlag` function that says what one flag setter does to FLAGS.
- `Opcodes` (opcodes.dfy): the 36 constants.
- `Instructions` (instructions.dfy): `Instruction`, the dispatch table
  `CreateInstructionset` built by successive `Dictionary.Add`s, and
  `CPU.Decode`.
- `Memory` (memory.dfy): `FillMemory`, `Read`, `Read16` and `Write` as
  functions over the byte sequence.
- `Semantics` (semantics.dfy): each handler and `CPU.Step` as a function on
  a machine `State`, plus the lemmas about them.
- `Machine` (machine.dfy): the `Bus` and `CPU` classes and one method per
  handler lambda. They mutate registers, the GP array and the memory array
  in place. Each method is proved to produce the state its `Semantics`
  function defines.
- `Loader` (loader.dfy): `FileLoader.ParseBytes` and `ParseHeader`, plus a
  header encoding with round-trip lemmas.

How a thrown exception is modelled: when a C# method throws, the model
returns `Fail(fault)` or `Err(fault)`. The state is whatever the C# code had
already changed before the throw.

- A handler never changes anything before it throws.
- A failed fetch leaves PC alone.
- A failed table lookup, or a failed handler, leaves PC advanced by four.
- A headed ROM whose payload does not fit still sets the four header
  properties first.

## Model

| member | source | states |
|---|---|---|
| RegisterFile.Registers.constructor | EmuCore/Registers.cs:17-31 | PC = 0, SP = 0xFDF0, a fresh GP array of 16 zeros, FLAGS = 0 |
| RegisterFile.Registers.IncrementPC | EmuCore/Registers.cs:33-36 | PC becomes (PC + 4) mod 65536; SP and FLAGS stay, GP is outside the frame |
| RegisterFile.Registers.IncrementSP | EmuCore/Registers.cs:38-41 | SP becomes (SP + 2) mod 65536; PC and FLAGS stay |
| RegisterFile.Registers.DecrementSP | EmuCore/Registers.cs:101-104 | SP becomes (SP - 2) mod 65536; PC and FLAGS stay |
| RegisterFile.StackPointerStepsInverse | EmuCore/Registers.cs:38-41 | IncrementSP and DecrementSP undo each other for every SP, also across the wrap |
| RegisterFile.ProgramCounterWraps | EmuCore/Registers.cs:33-36 | IncrementPC adds four below 0xFFFC and from 0xFFFC on wraps into addresses 0 to 3 |
| RegisterFile.Registers.SetCarryFlag | EmuCore/Registers.cs:43-53 | FLAGS becomes WithFlag(FLAGS, 0x02, value); PC and SP stay |
| RegisterFile.Registers.SetNegativeFlag | EmuCore/Registers.cs:55-65 | FLAGS becomes WithFlag(FLAGS, 0x80, value); PC and SP stay |
| RegisterFile.Registers.SetOverflowFlag | EmuCore/Registers.cs:67-77 | FLAGS becomes WithFlag(FLAGS, 0x40, value); PC and SP stay |
| RegisterFile.Registers.SetZeroFlag | EmuCore/Registers.cs:79-89 | FLAGS becomes WithFlag(FLAGS, 0x04, value); PC and SP stay |
| RegisterFile.Registers.EnableFlag | EmuCore/Registers.cs:91-94 | FLAGS becomes FLAGS OR mask |
| RegisterFile.Registers.DisableFlag | EmuCore/Registers.cs:96-99 | FLAGS becomes FLAGS AND NOT mask |
| RegisterFile.WithFlag | EmuCore/Registers.cs:91-99 | the mask bits take the written value and every bit outside the mask keeps its old value |
| RegisterFile.Mask | EmuCore/Registers.cs:5-11 | each flag mask avoids the reserved bits 0, 3, 4 and 5 |
| RegisterFile.MasksAreDistinctBits | EmuCore/Registers.cs:7-10 | each mask is a single bit, and two different flags share no bit |
| RegisterFile.WithFlagIdempotent | EmuCore/Registers.cs:43-89 | calling a setter twice with the same value equals calling it once |
| RegisterFile.WithFlagLastWins | EmuCore/Registers.cs:43-89 | of two writes to one flag only the second is visible |
| RegisterFile.WithFlagCommutes | EmuCore/Registers.cs:43-89 | setters for different flags commute |
| RegisterFile.FlagWritesKeepReserved | EmuCore/Registers.cs:21-31 | no sequence of setter calls changes a reserved FLAGS bit |
| RegisterFile.ReservedStayZero | EmuCore/Registers.cs:31 | from the initial FLAGS = 0, the reserved bits stay zero after any setter sequence |
| RegisterFile.FlagWritesLastValue | EmuCore/Registers.cs:43-99 | after any setter sequence each flag holds its last written value, and a flag never written keeps its old bit |
| RegisterFile.SetterValuesFromZero | EmulatorTests/RegisterTests.cs:39-102 | starting from FLAGS = 0, each setter gives exactly 0x02, 0x04, 0x40 or 0x80, and each unset gives 0 |
| Opcodes.AllDistinct | EmuCore/Opcodes.cs:6-65 | the 36 constants are pairwise distinct |
| Opcodes.GroupsMatchHighNibble | EmuCore/Opcodes.cs:5-65 | each constant's high nibble is the group it is declared under |
| Opcodes.TestedOpcodesUnhandled | EmulatorTests/InstructionsetTests.cs:271-1207 | ADD, ADDI, SUB, CMPI, OR, MUL2, DIV2, SHL, SHR, RET, POP and PUSHF have no handler |
| Bits.ShortPatternRoundTrip | EmuCore/InstructionsetFactory.cs:70 | (short) and (ushort) are inverse reinterpretations of a 16-bit pattern |
| Bits.ReadUInt16LE | EmuCore/FileLoader.cs:53 | the low byte of the result is b[i] and the high byte b[i+1] |
| Bits.ReadInt16LE | EmuCore/Bus.cs:43 | the 16-bit pattern of the short has low byte b[i] and high byte b[i+1] |
| Bits.ReadInt32LE | EmuCore/Bus.cs:37 | the int is congruent modulo 2^32 to b[i] + 2^8 b[i+1] + 2^16 b[i+2] + 2^24 b[i+3], and negative iff the top bit of b[i+3] is set |
| Bits.Int32BytesRoundTrip | EmuCore/CPU.cs:51 | the specification of GetBytes32 (BitConverter.GetBytes(int)): decoding its four bytes yields the int again |
| Bits.BytesInt32RoundTrip | EmuCore/Bus.cs:37 | encoding the int read from four bytes gives those four bytes back |
| Bits.BytesInt16RoundTrip | EmuCore/Bus.cs:43 | encoding the short read from two bytes gives those two bytes back |
| Bits.GetBytes16 | EmuCore/Bus.cs:49 | two bytes, which decode little-endian to the value again |
| Bits.Increment32 | EmuCore/Bus.cs:23 | Cycles++ adds one modulo 2^32 and is exact below int.MaxValue |
| Bits.Xor16 | EmuCore/InstructionsetFactory.cs:99 | the truncated XOR is zero iff the operands are equal, and negative iff their signs differ |
| Bits.XorInvolution | EmuCore/InstructionsetFactory.cs:99 | XOR by the same operand twice gives the first operand back |
| Bits.XorZeroUnit | EmuCore/InstructionsetFactory.cs:99 | XOR with zero gives the other operand |
| Bits.And16 | EmuCore/InstructionsetFactory.cs:80 | the AND is negative iff both operands are negative; -1 is its unit and 0 absorbs |
| Bits.HighNibble | EmuCore/InstructionsetFactory.cs:62 | `b >> 4` is the n < 16 with 16n <= b < 16n + 16 |
| Bits.LowNibble | EmuCore/InstructionsetFactory.cs:63 | `b & 0b1111` is the n < 16 congruent to b modulo 16 |
| Instructions.NewInstruction | EmuCore/CPU.cs:8-17 | succeeds iff there are exactly three parameter bytes, keeping the opcode and the bytes in order; otherwise ArgumentException |
| Instructions.Address | EmuCore/InstructionsetFactory.cs:32 | ToUInt16(p, 1) is p[1] + 256 p[2] |
| Instructions.Immediate | EmuCore/InstructionsetFactory.cs:39 | ToInt16(p, 1) has the 16-bit pattern p[1] + 256 p[2] |
| Instructions.AddEntries | EmuCore/InstructionsetFactory.cs:10-22 | the initializer succeeds iff the keys are distinct and new; the table then holds exactly the old and the added keys, each mapped to its entry; otherwise ArgumentException |
| Instructions.CreateInstructionset | EmuCore/InstructionsetFactory.cs:8-23 | every Add succeeds, and the table's keys are exactly the ten handled opcodes |
| Instructions.CreateInstructionsetSucceeds | EmuCore/InstructionsetFactory.cs:8-23 | the table is created without exception, its keys are exactly the ten opcodes, and each maps to the handler of the same name |
| Instructions.Instructionset | EmuCore/CPU.cs:30-33 | the CPU's table is the successful result of CreateInstructionset |
| Instructions.TableDomain | EmuCore/InstructionsetFactory.cs:12-21 | an opcode has an entry iff it is one of the ten handled opcodes |
| Instructions.Decode | EmuCore/CPU.cs:49-56 | fails, with KeyNotFoundException only, iff the low byte of the word has no entry; otherwise the instruction's opcode is that byte, the handler is its entry, and opcode and parameters re-encode to the word |
| Instructions.DecodeOfMemoryWord | EmuCore/CPU.cs:49-56 | decoding the word read at a gives opcode mem[a] and parameters mem[a+1..a+3]; it fails, with KeyNotFoundException only, iff the opcode has no entry |
| Memory.Zeroed | EmuCore/Bus.cs:8-9 | 65,536 bytes, all zero |
| Memory.Fill | EmuCore/Bus.cs:26-33 | ArgumentException iff length + start > 65536; otherwise bytes[i] lands at start + i and every other byte is kept |
| Memory.Read | EmuCore/Bus.cs:35-39 | fails with ArgumentOutOfRangeException iff address > 0xFFFC; otherwise the value's four-byte encoding is mem[a..a+3] |
| Memory.Read16 | EmuCore/Bus.cs:41-45 | fails with ArgumentOutOfRangeException iff address > 0xFFFE; otherwise the value's two-byte encoding is mem[a..a+1] |
| Memory.Write | EmuCore/Bus.cs:47-51 | fails with ArgumentException iff address > 0xFFFE; otherwise the low byte goes to a, the high byte to a+1, and nothing else changes |
| Memory.WriteThenRead16 | EmulatorTests/BusTests.cs:24-35 | Read16 after Write at the same address returns the written value |
| Memory.WriteKeepsOtherRead16 | EmuCore/Bus.cs:47-51 | a write does not change a 16-bit read of two other bytes |
| Memory.TwoWritesReadAsWord | EmulatorTests/BusTests.cs:37-48 | writes at a and a+2 read back through Read(a) as one little-endian word, low half first |
| Memory.FillThenRead | EmulatorTests/BusTests.cs:50-60 | four filled bytes read back as the word they encode |
| Memory.BusExamples | EmulatorTests/BusTests.cs:24-74 | the bus tests' values: 0xabcd round-trips, 0xc0de and 0xdead read as (int)0xdeadc0de, and a fill at offset 2 leaves Read16(0) = 0 |
| Semantics.Initial | EmuCore/Registers.cs:17-31 | a new register file beside a new bus memory (EmuCore/Bus.cs:9): PC 0, SP 0xFDF0, FLAGS 0, every register and every byte 0 |
| Semantics.Execute | EmuCore/InstructionsetFactory.cs:25-102 | no handler changes the register count, the memory size or a reserved FLAGS bit |
| Semantics.ExecuteFailsExactly | EmuCore/InstructionsetFactory.cs:36-83 | a handler fails iff its operands demand it: register byte >= 16 (IndexOutOfRange), LDM at 0xFFFF (ArgumentOutOfRange), STM at 0xFFFF or CALL with SP = 0xFFFF (ArgumentException); the first fault in program order wins |
| Semantics.Step | EmuCore/CPU.cs:35-61 | one step keeps the state's shape and the reserved FLAGS bits |
| Semantics.StepFetchFault | EmuCore/CPU.cs:42-47 | with PC > 0xFFFC the fetch fails with ArgumentOutOfRangeException and nothing changes, PC included |
| Semantics.StepUnknownOpcode | EmuCore/CPU.cs:49-56 | an opcode byte without a handler leaves PC + 4 and nothing else, with KeyNotFoundException |
| Semantics.StepRunsHandler | EmuCore/CPU.cs:35-56 | a handled opcode runs its table handler on mem[PC+1..PC+3] with PC already advanced; a handler fault keeps the post-fetch state |
| Semantics.StepJmp | EmuCore/CPU.cs:35-40 | a JMP decides the final PC: the address bytes after the opcode, whatever the fetch did |
| Semantics.StepCallPushesNextInstruction | EmuCore/InstructionsetFactory.cs:68-74 | a CALL fetched at PC pushes PC + 4, the address of the next instruction, and jumps |
| Semantics.Run | EmuCore/Bus.cs:20-24 | repeated cycles keep the state's shape |
| Semantics.RunKeepsReservedZero | EmuCore/Registers.cs:21-31 | zero reserved FLAGS bits stay zero over any number of steps |
| Semantics.InitialRunKeepsReservedZero | EmuCore/Registers.cs:31 | from the power-on state, the reserved bits are zero after any run |
| Semantics.NopChangesNothing | EmuCore/InstructionsetFactory.cs:25-28 | the specification of ExecNop: NOP, dispatched through the table, returns the state unchanged |
| Semantics.ExecJmp | EmuCore/InstructionsetFactory.cs:30-34 | JMP sets PC to p[1] + 256 p[2] and nothing else |
| Semantics.ExecJ | EmuCore/InstructionsetFactory.cs:85-92 | J sets PC to p[1] + 256 p[2] when p[0] != 0 and otherwise returns the state unchanged; nothing but PC changes |
| Semantics.JJumpsIffNonzero | EmuCore/InstructionsetFactory.cs:85-92 | J behaves as JMP when p[0] != 0 and otherwise changes nothing |
| Semantics.ExecLdi | EmuCore/InstructionsetFactory.cs:36-41 | succeeds iff p[0] < 16, else IndexOutOfRangeException; then only GP[p[0]] changes, to the short whose pattern is p[1] + 256 p[2] |
| Semantics.ExecStm | EmuCore/InstructionsetFactory.cs:43-49 | succeeds iff p[0] < 16 and the immediate address is at most 0xFFFE, else IndexOutOfRangeException (checked first) or ArgumentException; then Read16 there returns GP[p[0]], no other byte and no register changes |
| Semantics.ExecLdm | EmuCore/InstructionsetFactory.cs:51-57 | succeeds iff the immediate address is at most 0xFFFE and p[0] < 16, else ArgumentOutOfRangeException (checked first) or IndexOutOfRangeException; then GP[p[0]] becomes Read16 there and nothing else changes |
| Semantics.StoreThenLoad | EmuCore/InstructionsetFactory.cs:43-57 | LDM after STM at the same address moves a register's value into another register |
| Semantics.ExecMov | EmuCore/InstructionsetFactory.cs:59-66 | GP[low nibble] becomes GP[high nibble]; no flag, other register or byte changes |
| Semantics.ExecCall | EmuCore/InstructionsetFactory.cs:68-74 | succeeds iff SP <= 0xFFFE, else ArgumentException; then the pattern of PC is readable at old SP, SP becomes SP + 2 and PC the immediate, the old SP is recoverable from SP - 2, and no other byte, register or flag changes |
| Semantics.ExecTsti | EmuCore/InstructionsetFactory.cs:76-83 | succeeds iff p[0] < 16, else IndexOutOfRangeException; then Zero is set iff GP[r] AND imm is 0 and Negative iff both are negative; Carry, Overflow, reserved bits, registers and memory stay |
| Semantics.TwoFlagWrites | EmuCore/InstructionsetFactory.cs:81-82 | after SetZeroFlag(z) then SetNegativeFlag(n) the two bits read z and n, and the other six are kept |
| Semantics.ExecXor | EmuCore/InstructionsetFactory.cs:94-102 | GP[x] becomes GP[x] XOR GP[y]; Zero is set iff they were equal; Negative iff their signs differed; everything else stays |
| Semantics.XorTwiceRestores | EmuCore/InstructionsetFactory.cs:94-102 | the same XOR on two different registers, run twice, restores all registers |
| Semantics.XorSelfClears | EmuCore/InstructionsetFactory.cs:94-102 | XOR of a register with itself gives 0, Zero set, Negative clear |
| Semantics.HandlerExamples | EmulatorTests/InstructionsetTests.cs:14-108 | the JMP, LDI and MOV test values (0xABCD; a register copied from 0xa to 0xb) |
| Semantics.JExamples | EmulatorTests/InstructionsetTests.cs:209-233 | J with parameter 1 jumps to 0xabcd; with parameter 0 it leaves the state as it was |
| Semantics.MemoryHandlerExamples | EmulatorTests/InstructionsetTests.cs:49-134 | the STM and CALL test values (0xdead at 0xabcd; 0xeeee at 0xff00, SP = 0xff02, PC = 0xabcd) |
| Semantics.TstiZeroExamples | EmulatorTests/InstructionsetTests.cs:147-175 | the TSTI Zero-flag tests |
| Semantics.TstiNegativeExamples | EmulatorTests/InstructionsetTests.cs:176-207 | the TSTI Negative-flag tests |
| Semantics.XorExamples | EmulatorTests/InstructionsetTests.cs:235-269 | 0 XOR -1 gives -1 with Negative set; 0 XOR 0 gives 0 with Zero set |
| Machine.Bus.constructor | EmuCore/Bus.cs:8-18 | fresh all-zero memory of 65,536 bytes and Cycles = 0 |
| Machine.Bus.ExecuteCycle | EmuCore/Bus.cs:20-24 | exactly one CPU step, with the state Semantics.Step gives; Cycles goes up by one (wrapping) iff the step returned normally |
| Machine.Bus.FillMemory | EmuCore/Bus.cs:26-33 | the memory array becomes Fill of its old contents, or stays as it was with the fault |
| Machine.Bus.Read | EmuCore/Bus.cs:35-39 | returns Memory.Read of the array |
| Machine.Bus.Read16 | EmuCore/Bus.cs:41-45 | returns Memory.Read16 of the array |
| Machine.Bus.Write | EmuCore/Bus.cs:47-51 | the memory array becomes Memory.Write of its old contents, or stays as it was with the fault |
| Machine.CPU.constructor | EmuCore/CPU.cs:25-33 | fresh registers in their initial state, the dispatch table, no bus yet |
| Machine.CPU.SetBus | EmuCore/CPU.cs:28 | the Bus property takes the given bus |
| Machine.CPU.Step | EmuCore/CPU.cs:35-61 | without a bus, NullReferenceException and nothing changes; otherwise the registers and the bus memory change exactly as Semantics.Step says |
| Machine.CPU.Fetch | EmuCore/CPU.cs:42-47 | returns the word read at the old PC; PC advances by four only if the read succeeded |
| Machine.Execute | EmuCore/CPU.cs:53-55 | runs the handler the table entry names, with the effect of Semantics.Execute |
| Machine.Nop | EmuCore/InstructionsetFactory.cs:25-28 | the effect of Semantics.ExecNop: nothing |
| Machine.Jmp | EmuCore/InstructionsetFactory.cs:30-34 | the effect of Semantics.ExecJmp |
| Machine.Ldi | EmuCore/InstructionsetFactory.cs:36-41 | the effect of Semantics.ExecLdi |
| Machine.Stm | EmuCore/InstructionsetFactory.cs:43-49 | the effect of Semantics.ExecStm |
| Machine.Ldm | EmuCore/InstructionsetFactory.cs:51-57 | the effect of Semantics.ExecLdm |
| Machine.Mov | EmuCore/InstructionsetFactory.cs:59-66 | the effect of Semantics.ExecMov |
| Machine.Call | EmuCore/InstructionsetFactory.cs:68-74 | the effect of Semantics.ExecCall |
| Machine.Tsti | EmuCore/InstructionsetFactory.cs:76-83 | the effect of Semantics.ExecTsti |
| Machine.J | EmuCore/InstructionsetFactory.cs:85-92 | the effect of Semantics.ExecJ |
| Machine.Xor | EmuCore/InstructionsetFactory.cs:94-102 | the effect of Semantics.ExecXor |
| Loader.HasMagic | EmuCore/FileLoader.cs:38 | true iff the first four bytes are the ASCII codes of "CH16" |
| Loader.HeaderFields | EmuCore/FileLoader.cs:49-55 | the version is byte 5, the ROM size and the CRC are the ints whose four-byte encodings are bytes 6-9 and 12-15, and the start address is byte 10 + 256 byte 11 |
| Loader.EncodeHeader | EmuCore/FileLoader.cs:11 | an encoded header is 16 bytes and starts with "CH16" |
| Loader.HeaderRoundTrip | EmuCore/FileLoader.cs:49-55 | parsing an encoded header gives back its four properties |
| Loader.HeaderBytesRoundTrip | EmuCore/FileLoader.cs:49-55 | any 16 bytes with the magic are the encoding of their parsed properties plus byte 4 |
| Loader.FileLoader.constructor | EmuCore/FileLoader.cs:16-27 | all four header properties start at 0 |
| Loader.FileLoader.ParseBytes | EmuCore/FileLoader.cs:35-47 | under 16 bytes: ArgumentOutOfRangeException, nothing changes; with "CH16": properties from the header, file[16..] filled at StartAddress; without: the whole file filled at 0 and properties unchanged |
| Loader.FileLoader.ParseHeader | EmuCore/FileLoader.cs:49-55 | the four properties become the parsed header fields |
| Loader.HeadedImageLoads | EmuCore/FileLoader.cs:38-42 | for a headed image the properties are recovered, the payload lands at StartAddress, and no header byte is copied |
| Loader.HeaderlessImageLoads | EmuCore/FileLoader.cs:43-46 | a headerless image lands at address 0, its first 16 bytes included |
| Loader.PlacementIgnoresSizeAndCrc | EmuCore/FileLoader.cs:41-54 | two images differing only in ROM size and CRC load identically, because neither is checked |

## Left out

- The GPU (EmuCore/GPU.cs). It holds only fields and a palette. The bus
  constructs one and never uses it.
- `FileLoader.LoadFile`: file I/O. `ParseBytes` takes the file's bytes as
  a parameter instead.
- EmuCore/System.cs and the UI driver loop (Chip16/MainPage.xaml.cs). They
  only wire a CPU to a Bus and call `ExecuteCycle` forever.
  - `CPU.SetBus` models the wiring. `Bus.ExecuteCycle` is stated for
    whatever bus the CPU holds, its own or none.
  - `Semantics.Run` models the loop up to its first fault.
- Opcodes that the tests exercise but the table does not register.
  `Opcodes.TestedOpcodesUnhandled` and `Semantics.StepUnknownOpcode` show
  that these raise KeyNotFoundException. Their arithmetic is not modelled.
- The interfaces EmuCore/IRegisters.cs and EmuCore/IBus.cs. The classes
  stand for them. `IRegisters` has no `DecrementSP`, so no handler calls it.
- Mock-based verification in the tests. Test values appear as example
  lemmas.
- Host endianness: `BitConverter` is assumed little-endian.
- Bitwise operations on shorts are computed in C# `int`; the model
  applies the 16-bit operation to the two patterns. XOR's `int` result is
  truncated back to a short, which is exactly the 16-bit XOR. TSTI's `&`
  result is never cast and is compared with 0 as an `int`; for two
  sign-extended shorts that `int` is already in the range of a short and
  equals the 16-bit AND read as a short.
- Where `FileLoader.ParseBytes` says PC should be set to StartAddress, there
  is only a TODO. The model does not touch the registers there either.
- The unused `header` field of FileLoader (EmuCore/FileLoader.cs:14).
- Loader.FileLoader.ParseHeader: requires 16 bytes. Its only caller passes
  the 16-byte header slice, so the model omits the shorter-array exceptions.
- Machine handler methods (Machine.Ldi, Machine.Stm and the others):
  require a 16-entry GP array and a 65,536-byte memory. Every Registers
  and Bus object has these.
- Machine.CPU.SetBus: requires a bus with 65,536 bytes of memory. Every
  constructed Bus has that.
