/** The register file: program counter, stack pointer, sixteen signed
    general-purpose registers and the FLAGS byte (EmuCore/Registers.cs). */
module RegisterFile {
  import opened Bits
  import opened Errors

  // FlagPositions: one bit per flag.
  const CARRY: bv8 := 0x02      // bit 1
  const ZERO: bv8 := 0x04       // bit 2
  const OVERFLOW: bv8 := 0x40   // bit 6
  const NEGATIVE: bv8 := 0x80   // bit 7
  /** Bits 0, 3, 4 and 5, which no flag uses. */
  const RESERVED: bv8 := 0x39

  const START_ROM: u16 := 0
  const START_STACK: u16 := 0xFDF0
  const START_IO: u16 := 0xFFF0

  const GP_COUNT := 16

  datatype Flag = Carry | Zero | Overflow | Negative

  function Mask(f: Flag): (m: bv8)
    ensures m & RESERVED == 0
  {
    match f
    case Carry => CARRY
    case Zero => ZERO
    case Overflow => OVERFLOW
    case Negative => NEGATIVE
  }

  /** The four masks are distinct single bits. */
  lemma MasksAreDistinctBits(f: Flag, g: Flag)
    ensures Mask(f) != 0 && Mask(f) & (Mask(f) - 1) == 0
    ensures f != g ==> Mask(f) & Mask(g) == 0
  {
  }

  /** FLAGS after EnableFlag(mask) (value true) or DisableFlag(mask)
      (value false): the mask bits take the value, every other bit stays. */
  function WithFlag(flags: bv8, mask: bv8, value: bool): (r: bv8)
    ensures r & mask == (if value then mask else 0)
    ensures r & !mask == flags & !mask
  {
    if value then flags | mask else flags & !mask
  }

  /** Writing a flag twice with the same value is writing it once. */
  lemma WithFlagIdempotent(flags: bv8, mask: bv8, value: bool)
    ensures WithFlag(WithFlag(flags, mask, value), mask, value) == WithFlag(flags, mask, value)
  {
  }

  /** Of two writes to the same flag only the second one is visible. */
  lemma WithFlagLastWins(flags: bv8, mask: bv8, first: bool, second: bool)
    ensures WithFlag(WithFlag(flags, mask, first), mask, second) == WithFlag(flags, mask, second)
  {
  }

  /** Writes to different flags commute. */
  lemma WithFlagCommutes(flags: bv8, f: Flag, g: Flag, v: bool, w: bool)
    requires f != g
    ensures WithFlag(WithFlag(flags, Mask(f), v), Mask(g), w)
         == WithFlag(WithFlag(flags, Mask(g), w), Mask(f), v)
  {
    MasksAreDistinctBits(f, g);
  }

  /** One call of SetCarryFlag, SetZeroFlag, SetOverflowFlag or SetNegativeFlag. */
  datatype FlagWrite = FlagWrite(flag: Flag, value: bool)

  /** FLAGS after the given setter calls, in order. */
  function ApplyFlagWrites(flags: bv8, writes: seq<FlagWrite>): bv8
    decreases |writes|
  {
    if writes == [] then flags
    else ApplyFlagWrites(WithFlag(flags, Mask(writes[0].flag), writes[0].value), writes[1..])
  }

  /** The value of the last write to flag f among the writes, if any. */
  function LastWrite(writes: seq<FlagWrite>, f: Flag): Option<bool>
    decreases |writes|
  {
    if writes == [] then None
    else if writes[|writes| - 1].flag == f then Some(writes[|writes| - 1].value)
    else LastWrite(writes[..|writes| - 1], f)
  }

  /** No sequence of flag setters changes a reserved bit. */
  lemma {:induction false} FlagWritesKeepReserved(flags: bv8, writes: seq<FlagWrite>)
    ensures ApplyFlagWrites(flags, writes) & RESERVED == flags & RESERVED
    decreases |writes|
  {
    if writes != [] {
      var next := WithFlag(flags, Mask(writes[0].flag), writes[0].value);
      assert next & RESERVED == flags & RESERVED by {
        ReservedUntouched(flags, Mask(writes[0].flag), writes[0].value);
      }
      FlagWritesKeepReserved(next, writes[1..]);
    }
  }

  lemma ReservedUntouched(flags: bv8, mask: bv8, value: bool)
    requires mask & RESERVED == 0
    ensures WithFlag(flags, mask, value) & RESERVED == flags & RESERVED
  {
  }

  /** Starting from the initial FLAGS, the reserved bits always read zero. */
  lemma ReservedStayZero(writes: seq<FlagWrite>)
    ensures ApplyFlagWrites(0, writes) & RESERVED == 0
  {
    FlagWritesKeepReserved(0, writes);
  }

  /** After a sequence of setter calls each flag holds the value of its
      last write, and a flag never written keeps its bit. */
  lemma {:induction false} FlagWritesLastValue(flags: bv8, writes: seq<FlagWrite>, f: Flag)
    ensures ApplyFlagWrites(flags, writes) & Mask(f)
         == match LastWrite(writes, f)
            case Some(v) => if v then Mask(f) else 0
            case None => flags & Mask(f)
    decreases |writes|
  {
    if writes != [] {
      var n := |writes| - 1;
      var init, last := writes[..n], writes[n];
      assert writes == init + [last];
      ApplyFlagWritesSnoc(flags, init, last);
      var before := ApplyFlagWrites(flags, init);
      FlagWritesLastValue(flags, init, f);
      if last.flag != f {
        MasksAreDistinctBits(f, last.flag);
        OtherMaskKept(before, Mask(last.flag), last.value, Mask(f));
      }
    }
  }

  lemma OtherMaskKept(flags: bv8, mask: bv8, value: bool, other: bv8)
    requires mask & other == 0
    ensures WithFlag(flags, mask, value) & other == flags & other
  {
  }

  lemma {:induction false} ApplyFlagWritesSnoc(flags: bv8, writes: seq<FlagWrite>, w: FlagWrite)
    ensures ApplyFlagWrites(flags, writes + [w])
         == WithFlag(ApplyFlagWrites(flags, writes), Mask(w.flag), w.value)
    decreases |writes|
  {
    if writes != [] {
      assert (writes + [w])[1..] == writes[1..] + [w];
      ApplyFlagWritesSnoc(WithFlag(flags, Mask(writes[0].flag), writes[0].value), writes[1..], w);
    }
  }

  /** The FLAGS values the register tests expect after one setter call on
      a fresh register file. */
  lemma SetterValuesFromZero()
    ensures WithFlag(0, CARRY, true) == 0x02
    ensures WithFlag(0, ZERO, true) == 0x04
    ensures WithFlag(0, OVERFLOW, true) == 0x40
    ensures WithFlag(0, NEGATIVE, true) == 0x80
    ensures forall f: Flag :: WithFlag(0, Mask(f), false) == 0
  {
  }

  /** IncrementSP and DecrementSP undo each other, also across the wrap. */
  lemma StackPointerStepsInverse(sp: u16)
    ensures Wrap16(Wrap16(sp + 2) - 2) == sp
    ensures Wrap16(Wrap16(sp - 2) + 2) == sp
    ensures Wrap16(0xFFFF + 2) == 1 && Wrap16(0 - 2) == 0xFFFE
  {
  }

  /** IncrementPC moves forward by four below 0xFFFC and wraps into the
      first four addresses from there on. */
  lemma ProgramCounterWraps(pc: u16)
    ensures pc < 0xFFFC ==> Wrap16(pc + 4) == pc + 4
    ensures pc >= 0xFFFC ==> Wrap16(pc + 4) == pc - 0xFFFC < 4
  {
  }

  class Registers {
    var PC: u16
    var SP: u16
    /** The array reference never changes; its sixteen entries do. */
    const GP: array<i16>
    var FLAGS: bv8

    constructor ()
      ensures PC == START_ROM && SP == START_STACK && FLAGS == 0
      ensures fresh(GP) && GP.Length == GP_COUNT
      ensures forall i :: 0 <= i < GP.Length ==> GP[i] == 0
    {
      PC := START_ROM;
      SP := START_STACK;
      GP := new i16[GP_COUNT](_ => 0);
      FLAGS := 0;
    }

    /** PC += 4 on a ushort, wrapping. */
    method IncrementPC()
      modifies this
      ensures PC == Wrap16(old(PC) + 4)
      ensures SP == old(SP) && FLAGS == old(FLAGS)
    {
      PC := Wrap16(PC + 4);
    }

    /** SP += 2 on a ushort, wrapping. */
    method IncrementSP()
      modifies this
      ensures SP == Wrap16(old(SP) + 2)
      ensures PC == old(PC) && FLAGS == old(FLAGS)
    {
      SP := Wrap16(SP + 2);
    }

    /** SP -= 2 on a ushort, wrapping. */
    method DecrementSP()
      modifies this
      ensures SP == Wrap16(old(SP) - 2)
      ensures PC == old(PC) && FLAGS == old(FLAGS)
    {
      SP := Wrap16(SP - 2);
    }

    method SetCarryFlag(value: bool)
      modifies this
      ensures FLAGS == WithFlag(old(FLAGS), CARRY, value)
      ensures PC == old(PC) && SP == old(SP)
    {
      if value {
        EnableFlag(CARRY);
      } else {
        DisableFlag(CARRY);
      }
    }

    method SetNegativeFlag(value: bool)
      modifies this
      ensures FLAGS == WithFlag(old(FLAGS), NEGATIVE, value)
      ensures PC == old(PC) && SP == old(SP)
    {
      if value {
        EnableFlag(NEGATIVE);
      } else {
        DisableFlag(NEGATIVE);
      }
    }

    method SetOverflowFlag(value: bool)
      modifies this
      ensures FLAGS == WithFlag(old(FLAGS), OVERFLOW, value)
      ensures PC == old(PC) && SP == old(SP)
    {
      if value {
        EnableFlag(OVERFLOW);
      } else {
        DisableFlag(OVERFLOW);
      }
    }

    method SetZeroFlag(value: bool)
      modifies this
      ensures FLAGS == WithFlag(old(FLAGS), ZERO, value)
      ensures PC == old(PC) && SP == old(SP)
    {
      if value {
        EnableFlag(ZERO);
      } else {
        DisableFlag(ZERO);
      }
    }

    /** FLAGS |= mask */
    method EnableFlag(mask: bv8)
      modifies this
      ensures FLAGS == old(FLAGS) | mask
      ensures PC == old(PC) && SP == old(SP)
    {
      FLAGS := FLAGS | mask;
    }

    /** FLAGS &= ~mask */
    method DisableFlag(mask: bv8)
      modifies this
      ensures FLAGS == old(FLAGS) & !mask
      ensures PC == old(PC) && SP == old(SP)
    {
      FLAGS := FLAGS & !mask;
    }
  }
}
