/**
 * PropWare's `BlockStorage`: the one-block buffer with its metadata record,
 * the dirty-buffer `flush`, `reload_buffer`, the byte accessors and the layout
 * rules of the `print_block` hex dump. The storage medium is a map from block
 * address to block contents; the error a transfer reports is a field of the
 * device that the caller sets, standing for the SPI outcome.
 */
module BlockStorage {
  import opened Base
  import Sd

  const BLOCK_SIZE: nat := Sd.SECTOR_SIZE

  /** `BlockStorage::MetaData`: where the buffered block lives and whether it is dirty. */
  class MetaData {
    var name: string
    var id: int
    var curTier1Offset: nat
    var curTier2Addr: nat
    var curTier2: nat
    var nextTier2: int
    var mod: bool

    /** Only the name is set; the other fields hold whatever they held, until their owner assigns them. */
    constructor ()
      ensures name == ""
    {
      name := "";
    }

    /** The device block this buffer belongs to. */
    function Address(): nat
      reads this
    {
      curTier2Addr + curTier1Offset
    }
  }

  /** `BlockStorage::Buffer`: one block of bytes and the metadata of its owner. */
  class Buffer {
    const buf: array<Byte>
    var meta: MetaData?

    constructor (meta: MetaData?)
      ensures this.meta == meta && buf.Length == BLOCK_SIZE && fresh(buf)
    {
      buf := new Byte[BLOCK_SIZE](_ => 0);
      this.meta := meta;
    }
  }

  /** The storage medium seen through `read_data_block` and `write_data_block`. */
  class Device {
    var blocks: map<nat, seq<Byte>>
    /** The error the next block write reports (0: the write succeeds). */
    var writeFault: ErrorCode
    /** The error the next block read reports (0: the read succeeds). */
    var readFault: ErrorCode

    ghost predicate Valid()
      reads this
    {
      forall a :: a in blocks ==> |blocks[a]| == BLOCK_SIZE
    }

    /** The contents of block `a`; a block never written reads as zeros. */
    function Block(a: nat): (r: seq<Byte>)
      reads this
      requires Valid()
      ensures |r| == BLOCK_SIZE
    {
      if a in blocks then blocks[a] else seq(BLOCK_SIZE, _ => 0)
    }

    constructor ()
      ensures Valid() && blocks == map[] && writeFault == NO_ERROR && readFault == NO_ERROR
    {
      blocks := map[];
      writeFault := NO_ERROR;
      readFault := NO_ERROR;
    }

    /** `write_data_block`: stores the buffer at `address` unless the device reports an error. */
    method WriteDataBlock(address: nat, dat: array<Byte>) returns (err: ErrorCode)
      requires Valid() && dat.Length == BLOCK_SIZE
      modifies this`blocks
      ensures Valid() && err == writeFault
      ensures blocks == if err == NO_ERROR then old(blocks)[address := dat[..]] else old(blocks)
    {
      err := writeFault;
      if err == NO_ERROR {
        blocks := blocks[address := dat[..]];
      }
    }

    /** `read_data_block`: fills the buffer from block `address` unless the device reports an error. */
    method ReadDataBlock(address: nat, buf: array<Byte>) returns (err: ErrorCode)
      requires Valid() && buf.Length == BLOCK_SIZE
      modifies buf
      ensures err == readFault
      ensures buf[..] == if err == NO_ERROR then Block(address) else old(buf[..])
    {
      err := readFault;
      if err == NO_ERROR {
        var data := Block(address);
        forall i | 0 <= i < BLOCK_SIZE {
          buf[i] := data[i];
        }
      }
    }

    /** `reload_buffer`: reads the block the buffer's metadata points at. */
    method ReloadBuffer(buffer: Buffer) returns (err: ErrorCode)
      requires Valid() && buffer.meta != null && buffer.buf.Length == BLOCK_SIZE
      modifies buffer.buf
      ensures err == readFault
      ensures buffer.buf[..] == if err == NO_ERROR then Block(buffer.meta.Address()) else old(buffer.buf[..])
    {
      err := ReadDataBlock(buffer.meta.curTier2Addr + buffer.meta.curTier1Offset, buffer.buf);
    }

    /**
     * `flush`: a buffer with metadata whose `mod` flag is set is written to the
     * block its metadata points at and marked clean; a failed write returns the
     * error and leaves the flag set; any other buffer is left alone.
     */
    method Flush(buffer: Buffer) returns (err: ErrorCode)
      requires Valid() && buffer.buf.Length == BLOCK_SIZE
      modifies this`blocks, buffer.meta
      ensures Valid()
      ensures buffer.meta == null || !old(buffer.meta.mod) ==>
        err == NO_ERROR && blocks == old(blocks) && (buffer.meta != null ==> unchanged(buffer.meta))
      ensures buffer.meta != null && old(buffer.meta.mod) ==>
        err == writeFault && buffer.meta.curTier2Addr == old(buffer.meta.curTier2Addr) &&
        buffer.meta.curTier1Offset == old(buffer.meta.curTier1Offset) &&
        (err == NO_ERROR ==> blocks == old(blocks)[buffer.meta.Address() := buffer.buf[..]] && !buffer.meta.mod) &&
        (err != NO_ERROR ==> blocks == old(blocks) && buffer.meta.mod)
    {
      if buffer.meta != null && buffer.meta.mod {
        err := WriteDataBlock(buffer.meta.curTier2Addr + buffer.meta.curTier1Offset, buffer.buf);
        if err != NO_ERROR {
          return;
        }
        buffer.meta.mod := false;
      }
      return NO_ERROR;
    }
  }

  /** `get_byte`: the byte at `offset`. */
  function GetByte(offset: nat, buf: seq<Byte>): Byte
    requires offset < |buf|
  {
    buf[offset]
  }

  /** `write_byte`: replaces the byte at `offset` and nothing else. */
  method WriteByte(offset: nat, buf: array<Byte>, value: Byte)
    requires offset < buf.Length
    modifies buf
    ensures GetByte(offset, buf[..]) == value
    ensures forall i :: 0 <= i < buf.Length && i != offset ==> buf[i] == old(buf[i])
  {
    buf[offset] := value;
  }

  /** The number of rows `print_block` prints: `words / wordsPerLine`, plus one for a remainder. */
  function LineCount(words: nat, wordsPerLine: nat): (lines: nat)
    requires 0 < wordsPerLine
    ensures lines * wordsPerLine >= words
    ensures lines == 0 || (lines - 1) * wordsPerLine < words
  {
    words / wordsPerLine + if words % wordsPerLine != 0 then 1 else 0
  }

  /** The character of the dump's ASCII column for one byte: printable ASCII as itself, everything else as '.'. */
  function AsciiCell(b: Byte): (c: char)
    ensures c == '.' || c == b as char
    ensures c == b as char <==> 32 <= b <= 126
  {
    if 32 <= b <= 126 then b as char else '.'
  }

  /** The ASCII column of one dump row: the cells of the `n` bytes from `base` on. */
  function RowCells(data: seq<Byte>, base: nat, n: nat): (r: seq<char>)
    requires base + n <= |data|
  {
    seq(n, k requires 0 <= k < n => AsciiCell(data[base + k]))
  }

  /** One row's ASCII column, built cell by cell as `print_block`'s inner loop prints it. */
  method AsciiRow(data: seq<Byte>, base: nat, n: nat) returns (row: seq<char>)
    requires base + n <= |data|
    ensures |row| == n
    ensures row == RowCells(data, base, n)
  {
    row := [];
    var offset := 0;
    while offset < n
      invariant 0 <= offset <= n && row == RowCells(data, base, offset)
    {
      row := row + [AsciiCell(data[base + offset])];
      offset := offset + 1;
    }
  }

  lemma {:induction false} RowFits(line: nat, lines: nat, width: nat)
    requires line < lines
    ensures line * width + width <= lines * width
  {
    if width > 0 {
      RowFits(line, lines, width - 1);
      assert line * width == line * (width - 1) + line;
      assert lines * width == lines * (width - 1) + lines;
    }
  }

  /**
   * The number of rows `print_block` actually prints: its row counter is an
   * 8-bit `uint_fast8_t`, so `LineCount` is taken modulo 256, both when the
   * quotient is stored and when the remainder row is added.
   */
  function RowsPrinted(words: nat, wordsPerLine: nat): (lines: nat)
    requires 0 < wordsPerLine
    ensures lines < 256
    ensures LineCount(words, wordsPerLine) < 256 ==> lines == LineCount(words, wordsPerLine)
  {
    LineCount(words, wordsPerLine) % 256
  }

  /** Adding the remainder row to the wrapped quotient wraps the full count. */
  lemma WrapCount(q: nat, remainder: bool)
    ensures (if remainder then (q % 256 + 1) % 256 else q % 256) == (q + if remainder then 1 else 0) % 256
  {
  }

  /** A full 512-byte sector dumped one or two bytes per row prints no rows at all. */
  lemma SectorDumpWraps()
    ensures LineCount(512, 1) == 512 && RowsPrinted(512, 1) == 0
    ensures LineCount(512, 2) == 256 && RowsPrinted(512, 2) == 0
    ensures LineCount(512, 16) == 32 && RowsPrinted(512, 16) == 32
  {
  }

  /** The byte at `k` of a `words`-byte dump falls in one of its `LineCount` rows. */
  lemma RowOfByte(k: nat, words: nat, wordsPerLine: nat)
    requires 0 < wordsPerLine && k < words
    ensures k / wordsPerLine < LineCount(words, wordsPerLine)
  {
    var q, lines := k / wordsPerLine, LineCount(words, wordsPerLine);
    assert q * wordsPerLine <= k;
    if q >= lines {
      MulMono(lines, q, wordsPerLine);
      assert false;
    }
  }

  lemma MulMono(a: nat, b: nat, c: nat)
    requires a <= b
    ensures a * c <= b * c
  {
  }

  /** The ASCII columns of the first `lines` rows of a dump, row `line` showing the bytes from `line * wordsPerLine` on. */
  method AsciiRows(data: seq<Byte>, lines: nat, wordsPerLine: nat) returns (rows: seq<seq<char>>)
    requires lines * wordsPerLine <= |data|
    ensures |rows| == lines
    ensures forall l :: 0 <= l < |rows| ==>
      l * wordsPerLine + wordsPerLine <= |data| && rows[l] == RowCells(data, l * wordsPerLine, wordsPerLine)
  {
    rows := [];
    var line := 0;
    while line < lines
      invariant 0 <= line <= lines && |rows| == line
      invariant forall l :: 0 <= l < line ==>
        l * wordsPerLine + wordsPerLine <= |data| && rows[l] == RowCells(data, l * wordsPerLine, wordsPerLine)
    {
      RowFits(line, lines, wordsPerLine);
      var row := AsciiRow(data, line * wordsPerLine, wordsPerLine);
      rows := rows + [row];
      line := line + 1;
    }
  }

  /**
   * The ASCII columns of `print_block` as written: the row count wraps at 256
   * as the source's 8-bit counter does.
   */
  method AsciiColumns(data: seq<Byte>, words: nat, wordsPerLine: nat) returns (rows: seq<seq<char>>)
    requires 0 < wordsPerLine < 256
    requires RowsPrinted(words, wordsPerLine) * wordsPerLine <= |data|
    ensures |rows| == RowsPrinted(words, wordsPerLine)
    ensures forall l :: 0 <= l < |rows| ==>
      l * wordsPerLine + wordsPerLine <= |data| && rows[l] == RowCells(data, l * wordsPerLine, wordsPerLine)
  {
    var lines := (words / wordsPerLine) % 256;
    if words % wordsPerLine != 0 {
      lines := (lines + 1) % 256;
    }
    WrapCount(words / wordsPerLine, words % wordsPerLine != 0);
    rows := AsciiRows(data, lines, wordsPerLine);
  }

  /**
   * The ASCII columns `print_block` is meant to print: with a counter wide
   * enough for any dump, every byte of the first `words` is shown exactly once,
   * the byte at `k` in row `k / wordsPerLine`.
   */
  method AsciiColumnsIntended(data: seq<Byte>, words: nat, wordsPerLine: nat) returns (rows: seq<seq<char>>)
    requires 0 < wordsPerLine < 256
    requires LineCount(words, wordsPerLine) * wordsPerLine <= |data|
    ensures |rows| == LineCount(words, wordsPerLine)
    ensures forall l :: 0 <= l < |rows| ==>
      l * wordsPerLine + wordsPerLine <= |data| && rows[l] == RowCells(data, l * wordsPerLine, wordsPerLine)
    ensures forall k :: 0 <= k < words ==> k / wordsPerLine < |rows|
  {
    forall k | 0 <= k < words
      ensures k / wordsPerLine < LineCount(words, wordsPerLine)
    {
      RowOfByte(k, words, wordsPerLine);
    }
    var lines := words / wordsPerLine;
    if words % wordsPerLine != 0 {
      lines := lines + 1;
    }
    rows := AsciiRows(data, lines, wordsPerLine);
  }
}
