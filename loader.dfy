/** The ROM image loader of EmuCore/FileLoader.cs: recognising the 16-byte
    "CH16" header, reading its fields and filling the bus with the right
    bytes at the right address. Reading the file from disk is not part of
    this model; ParseBytes receives its bytes. */
module Loader {
  import opened Bits
  import opened Errors
  import opened Memory
  import Machine

  /** Encoding.ASCII.GetBytes("CH16"). */
  const HEADER_MAGIC: seq<u8> := [0x43, 0x48, 0x31, 0x36]
  const HEADER_SIZE := 16

  /** The four header properties of a FileLoader. */
  datatype Header = Header(specificationVersion: u8, romSize: i32, startAddress: u16, crc32: i32)

  /** The first four bytes spell "CH16" in ASCII. */
  predicate HasMagic(header: seq<u8>): (b: bool)
    requires |header| >= 4
    ensures b <==> forall i :: 0 <= i < 4 ==> header[i] == "CH16"[i] as int
  {
    header[..4] == HEADER_MAGIC
  }

  /** ParseHeader: byte 5, the int at 6, the ushort at 10 and the int at 12,
      all little-endian; bytes 0 to 4 are not read. */
  function HeaderFields(header: seq<u8>): (h: Header)
    requires |header| == HEADER_SIZE
    ensures h.specificationVersion == header[5]
    ensures GetBytes32(h.romSize) == header[6..10]
    ensures h.startAddress == header[10] as int + 0x100 * header[11] as int
    ensures GetBytes32(h.crc32) == header[12..16]
  {
    BytesInt32RoundTrip(header, 6);
    BytesInt32RoundTrip(header, 12);
    Header(header[5], ReadInt32LE(header, 6), ReadUInt16LE(header, 10), ReadInt32LE(header, 12))
  }

  /** The header a ROM image carries for the given properties, with
      `reserved` in byte 4 (a byte the loader skips). */
  function EncodeHeader(h: Header, reserved: u8): (b: seq<u8>)
    ensures |b| == HEADER_SIZE && HasMagic(b)
  {
    HEADER_MAGIC + [reserved, h.specificationVersion] + GetBytes32(h.romSize)
      + GetBytesU16(h.startAddress) + GetBytes32(h.crc32)
  }

  /** Parsing an encoded header gives back its properties. */
  lemma {:induction false} HeaderRoundTrip(h: Header, reserved: u8)
    ensures HeaderFields(EncodeHeader(h, reserved)) == h
  {
    var b := EncodeHeader(h, reserved);
    assert b[6..10] == GetBytes32(h.romSize);
    assert b[10..12] == GetBytesU16(h.startAddress);
    assert b[12..16] == GetBytes32(h.crc32);
    Int32BytesRoundTrip(h.romSize);
    Int32BytesRoundTrip(h.crc32);
    assert ReadInt32LE(b, 6) == ReadInt32LE(b[6..10], 0);
    assert ReadInt32LE(b, 12) == ReadInt32LE(b[12..16], 0);
  }

  /** Every header that carries the magic is the encoding of its parsed
      properties, so parsing loses nothing but byte 4. */
  lemma {:induction false} HeaderBytesRoundTrip(b: seq<u8>)
    requires |b| == HEADER_SIZE && HasMagic(b)
    ensures EncodeHeader(HeaderFields(b), b[4]) == b
  {
    var h := HeaderFields(b);
    BytesInt32RoundTrip(b, 6);
    BytesInt32RoundTrip(b, 12);
    assert GetBytesU16(h.startAddress) == b[10..12];
    assert b == b[..4] + [b[4], b[5]] + b[6..10] + b[10..12] + b[12..16];
  }

  class FileLoader {
    const bus: Machine.Bus
    var SpecificationVersion: u8
    var RomSize: i32
    var StartAddress: u16
    var CRC32: i32

    function Properties(): Header
      reads this
    {
      Header(SpecificationVersion, RomSize, StartAddress, CRC32)
    }

    constructor (bus: Machine.Bus)
      ensures this.bus == bus && Properties() == Header(0, 0, 0, 0)
    {
      this.bus := bus;
      SpecificationVersion := 0;
      RomSize := 0;
      StartAddress := 0;
      CRC32 := 0;
    }

    /** ParseBytes(file). A file shorter than the header fails at the first
        slice with nothing changed. With the magic, the properties are
        taken from the header (even when the fill then fails) and the rest
        of the file is filled in at StartAddress; without it the whole
        file, header bytes included, is filled in at address 0 and the
        properties stay as they were. PC is not touched. */
    method ParseBytes(file: seq<u8>) returns (o: Outcome)
      requires bus.memory.Length == MEMORY_SIZE_BYTES
      modifies this, bus.memory
      ensures |file| < HEADER_SIZE ==>
                o == Fail(ArgumentOutOfRangeException) &&
                Properties() == old(Properties()) && bus.memory[..] == old(bus.memory[..])
      ensures |file| >= HEADER_SIZE && HasMagic(file) ==>
                Properties() == HeaderFields(file[..HEADER_SIZE]) &&
                match Fill(old(bus.memory[..]), file[HEADER_SIZE..], StartAddress)
                case Ok(m) => o == Pass && bus.memory[..] == m
                case Err(e) => o == Fail(e) && bus.memory[..] == old(bus.memory[..])
      ensures |file| >= HEADER_SIZE && !HasMagic(file) ==>
                Properties() == old(Properties()) &&
                match Fill(old(bus.memory[..]), file, 0)
                case Ok(m) => o == Pass && bus.memory[..] == m
                case Err(e) => o == Fail(e) && bus.memory[..] == old(bus.memory[..])
    {
      if |file| < HEADER_SIZE {
        return Fail(ArgumentOutOfRangeException);
      }
      var header := file[..HEADER_SIZE];
      if header[..4] == HEADER_MAGIC {
        ParseHeader(header);
        o := bus.FillMemory(file[HEADER_SIZE..], StartAddress);
      } else {
        o := bus.FillMemory(file, 0);
      }
    }

    /** ParseHeader(header) on the 16 header bytes ParseBytes sliced off. */
    method ParseHeader(header: seq<u8>)
      requires |header| == HEADER_SIZE
      modifies this
      ensures Properties() == HeaderFields(header)
    {
      SpecificationVersion := header[5];
      RomSize := ReadInt32LE(header[6..10], 0);
      StartAddress := ReadUInt16LE(header[10..12], 0);
      CRC32 := ReadInt32LE(header[12..16], 0);
    }
  }

  /** A headed image: the loader recovers the header's properties, places
      the payload at the start address and copies none of the 16 header
      bytes; every other byte of memory stays. */
  lemma {:induction false} HeadedImageLoads(h: Header, reserved: u8, payload: seq<u8>, mem: seq<u8>)
    requires |mem| == MEMORY_SIZE_BYTES && |payload| + h.startAddress <= MEMORY_SIZE_BYTES
    ensures var file := EncodeHeader(h, reserved) + payload;
            HasMagic(file) && HeaderFields(file[..HEADER_SIZE]) == h &&
            file[HEADER_SIZE..] == payload &&
            Fill(mem, file[HEADER_SIZE..], h.startAddress).Ok?
    ensures var m := Fill(mem, payload, h.startAddress).value;
            (forall i :: 0 <= i < |payload| ==> m[h.startAddress + i] == payload[i]) &&
            (forall a :: 0 <= a < MEMORY_SIZE_BYTES && !(h.startAddress <= a < h.startAddress + |payload|) ==> m[a] == mem[a])
  {
    HeadedImageSplits(h, reserved, payload);
  }

  /** A headed image splits into its header, which parses back to h, and
      the payload. */
  lemma HeadedImageSplits(h: Header, reserved: u8, payload: seq<u8>)
    ensures var file := EncodeHeader(h, reserved) + payload;
            HasMagic(file) && HeaderFields(file[..HEADER_SIZE]) == h && file[HEADER_SIZE..] == payload
  {
    var header := EncodeHeader(h, reserved);
    var file := header + payload;
    assert file[..HEADER_SIZE] == header;
    assert file[..4] == header[..4];
    HeaderRoundTrip(h, reserved);
  }

  /** A headerless image that fits: it lands at address 0, its first 16
      bytes included. */
  lemma HeaderlessImageLoads(file: seq<u8>, mem: seq<u8>)
    requires |mem| == MEMORY_SIZE_BYTES && HEADER_SIZE <= |file| <= MEMORY_SIZE_BYTES && !HasMagic(file)
    ensures Fill(mem, file, 0).Ok?
    ensures Fill(mem, file, 0).value[..|file|] == file
  {
    var m := Fill(mem, file, 0).value;
    assert forall i :: 0 <= i < |file| ==> m[i] == file[i];
  }

  /** Only the header's start address decides where the payload goes: the
      ROM size and the CRC are recorded and never checked. */
  lemma PlacementIgnoresSizeAndCrc(h: Header, g: Header, reserved: u8, payload: seq<u8>, mem: seq<u8>)
    requires |mem| == MEMORY_SIZE_BYTES && h.startAddress == g.startAddress
    ensures var f := EncodeHeader(h, reserved) + payload; var e := EncodeHeader(g, reserved) + payload;
            Fill(mem, f[HEADER_SIZE..], HeaderFields(f[..HEADER_SIZE]).startAddress)
              == Fill(mem, e[HEADER_SIZE..], HeaderFields(e[..HEADER_SIZE]).startAddress)
  {
    var f := EncodeHeader(h, reserved) + payload;
    var e := EncodeHeader(g, reserved) + payload;
    assert f[..HEADER_SIZE] == EncodeHeader(h, reserved) && f[HEADER_SIZE..] == payload;
    assert e[..HEADER_SIZE] == EncodeHeader(g, reserved) && e[HEADER_SIZE..] == payload;
    HeaderRoundTrip(h, reserved);
    HeaderRoundTrip(g, reserved);
  }
}
