/**
 * The byte-order codecs of PropWare's `SD` driver: the little-endian
 * `get_short`/`get_long` readers and `write_short`/`write_long` writers that
 * the FAT layer uses on 512-byte sector buffers, and the sector geometry
 * constants. The SPI command traffic of the driver is not part of this model.
 */
module Sd {
  import opened Base

  const SECTOR_SIZE: nat := 512
  const SECTOR_SIZE_SHIFT: nat := 9

  /** `get_sector_size` is `1 << get_sector_size_shift`. */
  lemma SectorSizeIsShift()
    ensures SECTOR_SIZE == Pow2(SECTOR_SIZE_SHIFT)
  {
    Pow2Values();
    Pow2Add(1, 8);
  }

  /** `get_short`: the 16-bit little-endian value at `offset`. */
  function GetShort(buf: seq<Byte>, offset: nat): (r: nat)
    requires offset + 1 < |buf|
    ensures r < TWO_16
    ensures r % TWO_8 == buf[offset] && r / TWO_8 == buf[offset + 1]
  {
    buf[offset + 1] * TWO_8 + buf[offset]
  }

  /** `get_long`: the 32-bit little-endian value at `offset`. */
  function GetLong(buf: seq<Byte>, offset: nat): (r: nat)
    requires offset + 3 < |buf|
    ensures r < TWO_32
    ensures r % TWO_16 == GetShort(buf, offset)
    ensures r / TWO_16 == GetShort(buf, offset + 2)
  {
    buf[offset + 3] as int * 0x100_0000 + buf[offset + 2] as int * 0x1_0000 + buf[offset + 1] as int * 0x100 + buf[offset]
  }

  /** The buffer after `write_short(offset, buf, value)`: low byte first, then the high byte. */
  function ShortWritten(buf: seq<Byte>, offset: nat, value: nat): (r: seq<Byte>)
    requires offset + 1 < |buf| && value < TWO_16
    ensures |r| == |buf|
    ensures GetShort(r, offset) == value
    ensures forall i :: 0 <= i < |buf| && i != offset && i != offset + 1 ==> r[i] == buf[i]
  {
    buf[offset + 1 := value / TWO_8][offset := value % TWO_8]
  }

  /** Writing back the value just read leaves the buffer as it was. */
  lemma ShortWriteOfRead(buf: seq<Byte>, offset: nat)
    requires offset + 1 < |buf|
    ensures ShortWritten(buf, offset, GetShort(buf, offset)) == buf
  {
  }

  /** The buffer after `write_long(offset, buf, value)`: four bytes, least significant first. */
  function LongWritten(buf: seq<Byte>, offset: nat, value: nat): (r: seq<Byte>)
    requires offset + 3 < |buf| && value < TWO_32
    ensures |r| == |buf|
    ensures GetLong(r, offset) == value
    ensures forall i :: 0 <= i < |buf| && !(offset <= i < offset + 4) ==> r[i] == buf[i]
  {
    var low := ShortWritten(buf, offset, value % TWO_16);
    ShortWritten(low, offset + 2, value / TWO_16)
  }

  /** Writing back the long just read leaves the buffer as it was. */
  lemma LongWriteOfRead(buf: seq<Byte>, offset: nat)
    requires offset + 3 < |buf|
    ensures LongWritten(buf, offset, GetLong(buf, offset)) == buf
  {
    var v := GetLong(buf, offset);
    ShortWriteOfRead(buf, offset);
    ShortWriteOfRead(buf, offset + 2);
  }

  /** `write_short`: updates the two bytes at `offset` in place. */
  method WriteShort(offset: nat, buf: array<Byte>, value: nat)
    requires offset + 1 < buf.Length && value < TWO_16
    modifies buf
    ensures buf[..] == ShortWritten(old(buf[..]), offset, value)
  {
    buf[offset + 1] := value / TWO_8;
    buf[offset] := value % TWO_8;
  }

  /** The four bytes of a 32-bit value, as `write_long` extracts them and as two shorts hold them. */
  lemma LongBytes(value: nat)
    requires value < TWO_32
    ensures value / 0x100_0000 == (value / TWO_16) / TWO_8
    ensures (value / TWO_8) % TWO_8 == (value % TWO_16) / TWO_8
    ensures value % TWO_8 == (value % TWO_16) % TWO_8
  {
    LongDigits(value);
  }

  /** A long is its four bytes in base 256. */
  lemma LongDigits(value: nat)
    requires value < TWO_32
    ensures value == (value / 0x100_0000) * 0x100_0000 + ((value / TWO_16) % TWO_8) * TWO_16
      + ((value / TWO_8) % TWO_8) * TWO_8 + value % TWO_8
  {
  }

  /** `write_long`: updates the four bytes at `offset` in place, most significant byte first. */
  method WriteLong(offset: nat, buf: array<Byte>, value: nat)
    requires offset + 3 < buf.Length && value < TWO_32
    modifies buf
    ensures buf[..] == LongWritten(old(buf[..]), offset, value)
  {
    LongBytes(value);
    buf[offset + 3] := value / 0x100_0000;
    buf[offset + 2] := (value / 0x1_0000) % TWO_8;
    buf[offset + 1] := (value / TWO_8) % TWO_8;
    buf[offset] := value % TWO_8;
  }
}
