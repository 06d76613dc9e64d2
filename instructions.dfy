/** Instructions, the decoding of a fetched word and the opcode dispatch
    table (the pure part of EmuCore/CPU.cs and
    InstructionsetFactory.CreateInstructionset). */
module Instructions {
  import opened Bits
  import opened Errors
  import Opcodes

  datatype Instr = Instr(opcode: u8, parameters: seq<u8>)

  /** Every Instruction value that exists has exactly three parameter bytes. */
  type Instruction = i: Instr | |i.parameters| == 3 witness Instr(0, [0, 0, 0])

  /** new Instruction(opcode, parameters): refuses any parameter count but
      three with an ArgumentException, otherwise keeps a copy of both. */
  function NewInstruction(opcode: u8, parameters: seq<u8>): (r: Result<Instruction>)
    ensures r.Ok? <==> |parameters| == 3
    ensures r.Ok? ==> r.value.opcode == opcode && r.value.parameters == parameters
    ensures r.Err? ==> r.fault == ArgumentException
  {
    if |parameters| != 3 then Err(ArgumentException)
    else Ok(Instr(opcode, parameters))
  }

  // Operand fields shared by the handlers.

  /** BitConverter.ToUInt16(Parameters, 1): parameter bytes 1 (low) and 2 (high). */
  function Address(i: Instruction): (a: u16)
    ensures a == i.parameters[1] as int + 0x100 * i.parameters[2] as int
  {
    ReadUInt16LE(i.parameters, 1)
  }

  /** BitConverter.ToInt16(Parameters, 1): the same two bytes read as a short. */
  function Immediate(i: Instruction): (v: i16)
    ensures AsUshort(v) == Address(i)
  {
    ShortPatternRoundTrip(0, Address(i));
    ReadInt16LE(i.parameters, 1)
  }

  /** The operation a table entry refers to: one handler lambda of
      InstructionsetFactory each. */
  datatype Handler = Nop | Jmp | J | Call | Ldi | Ldm | Stm | Mov | Tsti | Xor

  /** The collection initializer of CreateInstructionset, in source order. */
  const FACTORY_ENTRIES: seq<(u8, Handler)> := [
    (Opcodes.JMP, Jmp),
    (Opcodes.LDI, Ldi),
    (Opcodes.STM, Stm),
    (Opcodes.LDM, Ldm),
    (Opcodes.MOV, Mov),
    (Opcodes.CALL, Call),
    (Opcodes.NOP, Nop),
    (Opcodes.TSTI, Tsti),
    (Opcodes.J, J),
    (Opcodes.XOR, Xor)
  ]

  ghost predicate DistinctKeys(entries: seq<(u8, Handler)>)
  {
    forall i, j :: 0 <= i < j < |entries| ==> entries[i].0 != entries[j].0
  }

  ghost function Keys(entries: seq<(u8, Handler)>): set<u8>
  {
    set i | 0 <= i < |entries| :: entries[i].0
  }

  /** Dictionary.Add of each entry in turn: an ArgumentException as soon
      as a key is already present, otherwise the table holding them all. */
  function AddEntries(table: map<u8, Handler>, entries: seq<(u8, Handler)>): (r: Result<map<u8, Handler>>)
    ensures r.Ok? <==> DistinctKeys(entries) && Keys(entries) !! table.Keys
    ensures r.Err? ==> r.fault == ArgumentException
    ensures r.Ok? ==> r.value.Keys == table.Keys + Keys(entries)
    ensures r.Ok? ==> forall k :: k in table ==> r.value[k] == table[k]
    ensures r.Ok? ==> forall i :: 0 <= i < |entries| ==> r.value[entries[i].0] == entries[i].1
    decreases |entries|
  {
    if entries == [] then Ok(table)
    else
      var (key, handler) := entries[0];
      var rest := entries[1..];
      KeysOfCons(entries);
      DistinctKeysOfCons(entries);
      if key in table then Err(ArgumentException)
      else AddEntries(table[key := handler], rest)
  }

  lemma KeysOfCons(entries: seq<(u8, Handler)>)
    requires entries != []
    ensures Keys(entries) == {entries[0].0} + Keys(entries[1..])
  {
    var rest := entries[1..];
    forall k | k in Keys(entries) ensures k in {entries[0].0} + Keys(rest) {
      var i :| 0 <= i < |entries| && entries[i].0 == k;
      if i > 0 { assert rest[i - 1].0 == k; }
    }
    forall k | k in Keys(rest) ensures k in Keys(entries) {
      var i :| 0 <= i < |rest| && rest[i].0 == k;
      assert entries[i + 1].0 == k;
    }
  }

  lemma DistinctKeysOfCons(entries: seq<(u8, Handler)>)
    requires entries != []
    ensures DistinctKeys(entries) <==> DistinctKeys(entries[1..]) && entries[0].0 !in Keys(entries[1..])
  {
    var rest := entries[1..];
    if DistinctKeys(entries) {
      forall i, j | 0 <= i < j < |rest| ensures rest[i].0 != rest[j].0 {
        assert entries[i + 1].0 != entries[j + 1].0;
      }
      forall i | 0 <= i < |rest| ensures rest[i].0 != entries[0].0 {
        assert entries[0].0 != entries[i + 1].0;
      }
    }
    if DistinctKeys(rest) && entries[0].0 !in Keys(rest) {
      forall i, j | 0 <= i < j < |entries| ensures entries[i].0 != entries[j].0 {
        assert entries[j].0 == rest[j - 1].0;
        if i > 0 {
          assert entries[i].0 == rest[i - 1].0;
        } else {
          assert rest[j - 1].0 in Keys(rest);
        }
      }
    }
  }

  /** CreateInstructionset(): the ten keys of the initializer are
      distinct, so every Add succeeds and the table holds exactly the
      handled opcodes. */
  function CreateInstructionset(): (r: Result<map<u8, Handler>>)
    ensures r.Ok? && r.value.Keys == Opcodes.HANDLED
  {
    FactoryKeysDistinct();
    FactoryKeySet();
    AddEntries(map[], FACTORY_ENTRIES)
  }

  lemma FactoryKeysDistinct()
    ensures DistinctKeys(FACTORY_ENTRIES)
  {
    var e := FACTORY_ENTRIES;
    var ks := [e[0].0, e[1].0, e[2].0, e[3].0, e[4].0, e[5].0, e[6].0, e[7].0, e[8].0, e[9].0];
    assert ks == [0x10, 0x20, 0x30, 0x22, 0x24, 0x14, 0x00, 0x63, 0x12, 0x81];
    forall i, j | 0 <= i < j < |e| ensures e[i].0 != e[j].0 {
      assert e[i].0 == ks[i] && e[j].0 == ks[j];
    }
  }

  lemma FactoryKeySet()
    ensures Keys(FACTORY_ENTRIES) == Opcodes.HANDLED
  {
    var e := FACTORY_ENTRIES;
    assert e[0].0 in Keys(e) && e[1].0 in Keys(e) && e[2].0 in Keys(e) && e[3].0 in Keys(e)
        && e[4].0 in Keys(e) && e[5].0 in Keys(e) && e[6].0 in Keys(e) && e[7].0 in Keys(e)
        && e[8].0 in Keys(e) && e[9].0 in Keys(e);
  }

  lemma FactoryTableControlFlow()
    ensures CreateInstructionset().Ok? && CreateInstructionset().value.Keys == Opcodes.HANDLED
    ensures var t := CreateInstructionset().value;
            t[Opcodes.NOP] == Nop && t[Opcodes.JMP] == Jmp && t[Opcodes.J] == J &&
            t[Opcodes.CALL] == Call && t[Opcodes.TSTI] == Tsti
  {
    var e := FACTORY_ENTRIES;
    var t := CreateInstructionset().value;
    assert t[e[6].0] == e[6].1 && t[e[0].0] == e[0].1 && t[e[8].0] == e[8].1
        && t[e[5].0] == e[5].1 && t[e[7].0] == e[7].1;
  }

  lemma FactoryTableDataFlow()
    ensures CreateInstructionset().Ok? && CreateInstructionset().value.Keys == Opcodes.HANDLED
    ensures var t := CreateInstructionset().value;
            t[Opcodes.LDI] == Ldi && t[Opcodes.LDM] == Ldm && t[Opcodes.STM] == Stm &&
            t[Opcodes.MOV] == Mov && t[Opcodes.XOR] == Xor
  {
    var e := FACTORY_ENTRIES;
    var t := CreateInstructionset().value;
    assert t[e[1].0] == e[1].1 && t[e[3].0] == e[3].1 && t[e[2].0] == e[2].1
        && t[e[4].0] == e[4].1 && t[e[9].0] == e[9].1;
  }

  /** The ten opcode constants the factory registers are pairwise
      distinct, so the initializer succeeds; the table maps exactly them,
      each to the handler of the same name. */
  lemma CreateInstructionsetSucceeds()
    ensures CreateInstructionset().Ok?
    ensures var t := CreateInstructionset().value;
            t.Keys == Opcodes.HANDLED &&
            t[Opcodes.NOP] == Nop && t[Opcodes.JMP] == Jmp && t[Opcodes.J] == J &&
            t[Opcodes.CALL] == Call && t[Opcodes.LDI] == Ldi && t[Opcodes.LDM] == Ldm &&
            t[Opcodes.STM] == Stm && t[Opcodes.MOV] == Mov && t[Opcodes.TSTI] == Tsti &&
            t[Opcodes.XOR] == Xor
  {
    FactoryTableControlFlow();
    FactoryTableDataFlow();
  }

  /** The table the CPU holds for its whole lifetime. */
  function Instructionset(): (t: map<u8, Handler>)
    ensures CreateInstructionset() == Ok(t)
  {
    CreateInstructionsetSucceeds();
    CreateInstructionset().value
  }

  /** An opcode has an entry exactly when it is one of the ten handled ones. */
  lemma TableDomain(op: u8)
    ensures op in Instructionset() <==> op in Opcodes.HANDLED
  {
    CreateInstructionsetSucceeds();
  }

  /** Decode: BitConverter.GetBytes of the word, the lowest byte as opcode,
      the other three as parameters, then the table lookup (which throws a
      KeyNotFoundException for an unregistered opcode). */
  function Decode(table: map<u8, Handler>, word: i32): (r: Result<(Handler, Instruction)>)
    ensures var opcode := AsUint(word) % 0x100;
            (r.Ok? <==> opcode in table) &&
            (r.Ok? ==> r.value.1.opcode == opcode && r.value.0 == table[opcode] &&
                       ReadInt32LE([r.value.1.opcode] + r.value.1.parameters, 0) == word) &&
            (r.Err? ==> r.fault == KeyNotFoundException)
  {
    var bytes := GetBytes32(word);
    assert [bytes[0]] + bytes[1..] == bytes;
    Int32BytesRoundTrip(word);
    match NewInstruction(bytes[0], bytes[1..])
    case Err(e) => Err(e)
    case Ok(instruction) =>
      if instruction.opcode in table then Ok((table[instruction.opcode], instruction))
      else Err(KeyNotFoundException)
  }

  /** Decoding the little-endian word read at a: the opcode is the byte at
      a and the parameters the next three bytes; the lookup fails exactly
      for opcodes without an entry, and never with any other fault. */
  lemma {:induction false} DecodeOfMemoryWord(table: map<u8, Handler>, mem: seq<u8>, a: nat)
    requires a + 4 <= |mem|
    ensures var d := Decode(table, ReadInt32LE(mem, a));
            (d.Ok? <==> mem[a] in table) &&
            (d.Ok? ==> d.value == (table[mem[a]], Instr(mem[a], mem[a + 1..a + 4]))) &&
            (d.Err? ==> d.fault == KeyNotFoundException)
  {
    BytesInt32RoundTrip(mem, a);
    var bytes := GetBytes32(ReadInt32LE(mem, a));
    assert bytes[0] == mem[a] && bytes[1..] == mem[a + 1..a + 4];
  }
}
