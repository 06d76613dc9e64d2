/** The 64 KiB address space of the Bus as a value, and what FillMemory,
    Read, Read16 and Write do to it or read from it (EmuCore/Bus.cs).
    A sequence of exactly MEMORY_SIZE_BYTES bytes stands for the array. */
module Memory {
  import opened Bits
  import opened Errors

  const MEMORY_SIZE_BYTES := 0x1_0000

  /** The memory of a new Bus: every byte zero. */
  function Zeroed(): (m: seq<u8>)
    ensures |m| == MEMORY_SIZE_BYTES && forall a :: 0 <= a < |m| ==> m[a] == 0
  {
    seq(MEMORY_SIZE_BYTES, _ => 0)
  }

  /** FillMemory(bytes, start): an ArgumentException when the bytes would
      run past the end; otherwise they are copied to start, start+1, ...
      and all other bytes stay as they were. */
  function Fill(mem: seq<u8>, bytes: seq<u8>, start: u16): (r: Result<seq<u8>>)
    requires |mem| == MEMORY_SIZE_BYTES
    ensures r.Err? <==> |bytes| + start > MEMORY_SIZE_BYTES
    ensures r.Err? ==> r.fault == ArgumentException
    ensures r.Ok? ==> |r.value| == MEMORY_SIZE_BYTES
    ensures r.Ok? ==> forall i :: 0 <= i < |bytes| ==> r.value[start + i] == bytes[i]
    ensures r.Ok? ==> forall a :: 0 <= a < |mem| && !(start <= a < start + |bytes|) ==> r.value[a] == mem[a]
  {
    if |bytes| + start > MEMORY_SIZE_BYTES then Err(ArgumentException)
    else
      var m := mem[..start] + bytes + mem[start + |bytes|..];
      assert forall i :: 0 <= i < |bytes| ==> m[start + i] == bytes[i];
      Ok(m)
  }

  /** Read(address): the int stored little-endian at address..address+3;
      the four-byte slice is out of range above 0xFFFC. */
  function Read(mem: seq<u8>, address: u16): (r: Result<i32>)
    requires |mem| == MEMORY_SIZE_BYTES
    ensures r.Ok? <==> address <= 0xFFFC
    ensures r.Err? ==> r.fault == ArgumentOutOfRangeException
    ensures r.Ok? ==> GetBytes32(r.value) == mem[address..address + 4]
  {
    if address as int + 4 > MEMORY_SIZE_BYTES then Err(ArgumentOutOfRangeException)
    else
      BytesInt32RoundTrip(mem, address);
      Ok(ReadInt32LE(mem, address))
  }

  /** Read16(address): the short stored little-endian at address, address+1;
      the two-byte slice is out of range at 0xFFFF. */
  function Read16(mem: seq<u8>, address: u16): (r: Result<i16>)
    requires |mem| == MEMORY_SIZE_BYTES
    ensures r.Ok? <==> address <= 0xFFFE
    ensures r.Err? ==> r.fault == ArgumentOutOfRangeException
    ensures r.Ok? ==> GetBytes16(r.value) == mem[address..address + 2]
  {
    if address as int + 2 > MEMORY_SIZE_BYTES then Err(ArgumentOutOfRangeException)
    else
      BytesInt16RoundTrip(mem, address);
      Ok(ReadInt16LE(mem, address))
  }

  /** Write(address, value): the low byte of value at address, the high
      byte at address+1, nothing else changed; Array.Copy refuses the
      copy with an ArgumentException at 0xFFFF. */
  function Write(mem: seq<u8>, address: u16, value: i16): (r: Result<seq<u8>>)
    requires |mem| == MEMORY_SIZE_BYTES
    ensures r.Ok? <==> address <= 0xFFFE
    ensures r.Err? ==> r.fault == ArgumentException
    ensures r.Ok? ==> |r.value| == MEMORY_SIZE_BYTES
    ensures r.Ok? ==> r.value[address..address + 2] == GetBytes16(value)
    ensures r.Ok? ==> forall a :: 0 <= a < |mem| && a != address && a != address + 1 ==> r.value[a] == mem[a]
  {
    if address as int + 2 > MEMORY_SIZE_BYTES then Err(ArgumentException)
    else
      var bytes := GetBytes16(value);
      Ok(mem[address := bytes[0]][address + 1 := bytes[1]])
  }

  /** What Write stores, Read16 reads back. */
  lemma WriteThenRead16(mem: seq<u8>, address: u16, value: i16)
    requires |mem| == MEMORY_SIZE_BYTES && address <= 0xFFFE
    ensures Read16(Write(mem, address, value).value, address) == Ok(value)
  {
    var m := Write(mem, address, value).value;
    assert m[address..address + 2] == GetBytes16(value);
    assert ReadInt16LE(m, address) == ReadInt16LE(GetBytes16(value), 0);
  }

  /** A write leaves a 16-bit read of two other bytes as it was. */
  lemma WriteKeepsOtherRead16(mem: seq<u8>, address: u16, value: i16, other: u16)
    requires |mem| == MEMORY_SIZE_BYTES && address <= 0xFFFE && other <= 0xFFFE
    requires other + 1 < address || address + 1 < other
    ensures Read16(Write(mem, address, value).value, other) == Read16(mem, other)
  {
    var m := Write(mem, address, value).value;
    assert m[other..other + 2] == mem[other..other + 2];
  }

  /** Two 16-bit writes at address and address+2 read back, through the
      32-bit Read, as one little-endian word: first the low half. */
  lemma TwoWritesReadAsWord(mem: seq<u8>, address: u16, low: i16, high: i16)
    requires |mem| == MEMORY_SIZE_BYTES && address <= 0xFFFC
    ensures var m := Write(Write(mem, address, low).value, address + 2, high).value;
            Read(m, address).Ok? && GetBytes32(Read(m, address).value) == GetBytes16(low) + GetBytes16(high)
  {
    var m1 := Write(mem, address, low).value;
    var m := Write(m1, address + 2, high).value;
    assert m[address..address + 2] == m1[address..address + 2];
    assert m[address..address + 4] == m[address..address + 2] + m[address + 2..address + 4];
  }

  /** Filled bytes read back, through the 32-bit Read, as the word they
      encode. */
  lemma FillThenRead(mem: seq<u8>, bytes: seq<u8>, start: u16)
    requires |mem| == MEMORY_SIZE_BYTES && |bytes| == 4 && start <= 0xFFFC
    ensures Fill(mem, bytes, start).Ok?
    ensures GetBytes32(Read(Fill(mem, bytes, start).value, start).value) == bytes
  {
    var m := Fill(mem, bytes, start).value;
    assert m[start..start + 4] == bytes;
  }

  /** The expected values of the bus tests, on the memory of a new Bus. */
  lemma BusExamples()
    ensures Read16(Write(Zeroed(), 0x10, AsShort(0xabcd)).value, 0x10) == Ok(AsShort(0xabcd))
    ensures var m := Write(Write(Zeroed(), 0x10, AsShort(0xc0de)).value, 0x12, AsShort(0xdead)).value;
            Read(m, 0x10) == Ok(AsInt(0xdeadc0de))
    ensures Read(Fill(Zeroed(), [0xde, 0xc0, 0xad, 0xde], 0).value, 0) == Ok(AsInt(0xdeadc0de))
    ensures var m := Fill(Zeroed(), [0xde, 0xc0, 0xad, 0xde], 2).value;
            Read16(m, 0) == Ok(0) && Read(m, 2) == Ok(AsInt(0xdeadc0de))
  {
    var word := [0xde, 0xc0, 0xad, 0xde];
    assert ReadInt32LE(word, 0) == AsInt(0xdeadc0de);
    WriteThenRead16(Zeroed(), 0x10, AsShort(0xabcd));
    TwoWritesReadAsWord(Zeroed(), 0x10, AsShort(0xc0de), AsShort(0xdead));
    assert GetBytes16(AsShort(0xc0de)) + GetBytes16(AsShort(0xdead)) == word;
    var m := Write(Write(Zeroed(), 0x10, AsShort(0xc0de)).value, 0x12, AsShort(0xdead)).value;
    Int32OfBytes(Read(m, 0x10).value, word);
    FillThenRead(Zeroed(), word, 0);
    Int32OfBytes(Read(Fill(Zeroed(), word, 0).value, 0).value, word);
    FillThenRead(Zeroed(), word, 2);
    var f := Fill(Zeroed(), word, 2).value;
    Int32OfBytes(Read(f, 2).value, word);
    assert f[0] == 0 && f[1] == 0;
    assert ReadInt16LE(f, 0) == 0;
  }
}
