/**
 * PropWare's file layer: the position rules of `File` (file.h), the reading
 * helpers of `FileReader` (filereader.h), the string writer of `FileWriter`
 * (filewriter.h) and the FAT implementations `FatFileReader`
 * (fatfilereader.h) and `FatFileWriter` (fatfilewriter.h).
 *
 * The C++ classes inherit from one another; here each FAT file holds a `File`
 * (its length, pointer, error and open flag) and a `Chain` (its bytes on the
 * device and the one-sector buffer). `FatFile` (fatfile.h) is not part of this
 * model: what its `find`, `open_existing_file`, `load_sector_under_ptr` and
 * `extend_fat` do is reduced to the answers and effects stated on `Chain` and
 * on the constant fields of the file classes.
 */
module Files {
  import opened Base
  import Sd
  import FatFs

  /**
   * The error codes of `File`. Their base, `Filesystem::BEG_ERROR`, is defined
   * in filesystem.h, which is not part of this model; the model relies only on
   * the codes being distinct and non-zero.
   */
  const EOF_ERROR: ErrorCode := 3
  const INVALID_FILENAME: ErrorCode := 4
  const FILE_NOT_OPEN: ErrorCode := 5
  /** `FatFile::FILENAME_NOT_FOUND` (fatfile.h). */
  const FILENAME_NOT_FOUND: ErrorCode := 20

  const SECTOR: nat := Sd.SECTOR_SIZE

  /** `get_char` and `peek` answer `(char) -1` when the read fails. */
  const READ_FAILED: char := 0xFF as char

  // ---------------------------------------------------------------- File

  datatype SeekDir = Beg | Cur | End

  /** What `seek` answers and the pointer it leaves. */
  datatype Sought = Sought(err: ErrorCode, ptr: int)

  /**
   * `seek(offset, way)`: every direction accepts exactly the offsets in
   * `[0, length]`; BEG moves to `offset`, CUR forward by `offset` and END to
   * `offset` before the end. A rejected offset answers `EOF_ERROR` and keeps
   * the pointer.
   */
  function SeekOf(length: int, ptr: int, offset: int, way: SeekDir): (r: Sought)
    ensures r.err == NO_ERROR || r.err == EOF_ERROR
    ensures r.err == NO_ERROR <==> 0 <= offset <= length
    ensures r.err != NO_ERROR ==> r.ptr == ptr
  {
    if offset < 0 || length < offset then Sought(EOF_ERROR, ptr)
    else match way
      case Beg => Sought(NO_ERROR, offset)
      case Cur => Sought(NO_ERROR, offset + ptr)
      case End => Sought(NO_ERROR, length - offset)
  }

  /** Seeking from the beginning or from the end always lands inside the file. */
  lemma SeekInside(length: int, ptr: int, offset: int, way: SeekDir)
    requires way != Cur && SeekOf(length, ptr, offset, way).err == NO_ERROR
    ensures 0 <= SeekOf(length, ptr, offset, way).ptr <= length
    ensures way == Beg ==> SeekOf(length, ptr, offset, way).ptr == offset
    ensures way == End ==> SeekOf(length, ptr, offset, way).ptr + offset == length
  {
  }

  /**
   * CUR checks the offset, not the position it leads to: from the end of a
   * one-byte file, seeking one further succeeds and leaves the pointer past
   * the end.
   */
  lemma SeekCurPastEnd()
    ensures SeekOf(1, 1, 1, Cur) == Sought(NO_ERROR, 2)
  {
  }

  /** `File`: the length, the pointer, the last stored error and whether the file is open. */
  class File {
    var length: int
    var ptr: int
    var error: ErrorCode
    var isOpen: bool

    /** A new file has length -1, its pointer at 0, no error and is not open. */
    constructor ()
      ensures length == -1 && ptr == 0 && error == NO_ERROR && !isOpen
    {
      length := -1;
      ptr := 0;
      error := NO_ERROR;
      isOpen := false;
    }

    /** `seek(offset, way)`. */
    method Seek(offset: int, way: SeekDir) returns (err: ErrorCode)
      modifies this`ptr
      ensures Sought(err, ptr) == SeekOf(length, old(ptr), offset, way)
    {
      match way {
        case Beg =>
          if offset > length || 0 > offset {
            return EOF_ERROR;
          }
          ptr := offset;
        case Cur =>
          var absolute := offset + ptr;
          if 0 > offset || offset > length {
            return EOF_ERROR;
          }
          ptr := absolute;
        case End =>
          var absolute := length - offset;
          if 0 > offset || offset > length {
            return EOF_ERROR;
          }
          ptr := absolute;
      }
      return NO_ERROR;
    }

    /** `seek(position)`: the same as seeking `position` from the beginning. */
    method SeekTo(position: int) returns (err: ErrorCode)
      modifies this`ptr
      ensures Sought(err, ptr) == SeekOf(length, old(ptr), position, Beg)
      ensures err == NO_ERROR ==> ptr == position
    {
      err := Seek(position, Beg);
    }

    /** `tell`. */
    function Tell(): int
      reads this
    {
      ptr
    }

    /** `get_length`. */
    function GetLength(): int
      reads this
    {
      length
    }

    /**
     * `close`, given what the file's own `flush` answered: the file is closed
     * only when flushing succeeded, and the flush error is returned.
     */
    method Close(flushed: ErrorCode) returns (err: ErrorCode)
      modifies this`isOpen
      ensures err == flushed
      ensures isOpen == (old(isOpen) && flushed != NO_ERROR)
    {
      err := flushed;
      if err == NO_ERROR {
        isOpen := false;
      }
    }
  }

  // --------------------------------------------------------------- Chain

  /** The bytes of `data` with sector `k` replaced by `sector`. */
  function Overlay(data: seq<Byte>, k: nat, sector: seq<Byte>): (r: seq<Byte>)
    requires (k + 1) * SECTOR <= |data| && |sector| == SECTOR
    ensures |r| == |data|
  {
    data[..k * SECTOR] + sector + data[(k + 1) * SECTOR..]
  }

  /** Each byte of an overlay comes from the sector inside it and from `data` elsewhere. */
  lemma OverlayAt(data: seq<Byte>, k: nat, sector: seq<Byte>, i: nat)
    requires (k + 1) * SECTOR <= |data| && |sector| == SECTOR && i < |data|
    ensures Overlay(data, k, sector)[i] == if k * SECTOR <= i < (k + 1) * SECTOR then sector[i - k * SECTOR] else data[i]
  {
  }

  /** Overlaying a sector with its own bytes changes nothing. */
  lemma OverlaySame(data: seq<Byte>, k: nat)
    requires (k + 1) * SECTOR <= |data|
    ensures Overlay(data, k, data[k * SECTOR..(k + 1) * SECTOR]) == data
  {
    assert data[..k * SECTOR] + data[k * SECTOR..(k + 1) * SECTOR] + data[(k + 1) * SECTOR..] == data;
  }

  /** Writing one byte of the buffered sector writes that byte of the overlay. */
  lemma OverlayUpdate(data: seq<Byte>, k: nat, sector: seq<Byte>, j: nat, b: Byte)
    requires (k + 1) * SECTOR <= |data| && |sector| == SECTOR && j < SECTOR
    ensures Overlay(data, k, sector[j := b]) == Overlay(data, k, sector)[k * SECTOR + j := b]
  {
    var l, r := Overlay(data, k, sector[j := b]), Overlay(data, k, sector)[k * SECTOR + j := b];
    forall i | 0 <= i < |data|
      ensures l[i] == r[i]
    {
      OverlayAt(data, k, sector[j := b], i);
      OverlayAt(data, k, sector, i);
    }
  }

  /** The sector of `i` in whole sectors, and where `i` sits inside it. */
  lemma SectorOf(i: nat, n: nat)
    requires i < n && n % SECTOR == 0
    ensures (i / SECTOR + 1) * SECTOR <= n
    ensures i / SECTOR * SECTOR + i % SECTOR == i
  {
  }

  /**
   * A file's bytes as they lie on the device (`data`, whole sectors of its
   * cluster chain) and the one-sector buffer it reads and writes through,
   * with the sector it holds (`loaded`, -1 for none) and its modified flag.
   * `loadFault` is what loading a sector beyond the chain answers,
   * `extendFault` what extending the chain answers (0 when it succeeds), and
   * `spare` what a newly allocated sector holds.
   */
  class Chain {
    var data: seq<Byte>
    const buf: array<Byte>
    var loaded: int
    var mod: bool
    const loadFault: ErrorCode
    const extendFault: ErrorCode
    const spare: seq<Byte>
    /** What the device answers `flush` writing the modified content sector back. */
    const flushFault: ErrorCode

    ghost predicate Valid()
      reads this, buf
    {
      buf.Length == SECTOR && |data| % SECTOR == 0 && |spare| == SECTOR && loadFault != NO_ERROR &&
      -1 <= loaded && (0 <= loaded ==> (loaded + 1) * SECTOR <= |data|) && (mod ==> 0 <= loaded) &&
      (0 <= loaded && !mod ==> buf[..] == data[loaded * SECTOR..(loaded + 1) * SECTOR])
    }

    /** The file's bytes as a reader sees them: the device's, with a modified buffer over its sector. */
    ghost function Contents(): (r: seq<Byte>)
      reads this, buf
      requires Valid()
      ensures |r| == |data|
    {
      if mod then Overlay(data, loaded, buf[..]) else data
    }

    constructor (data: seq<Byte>, loadFault: ErrorCode, extendFault: ErrorCode, spare: seq<Byte>, flushFault: ErrorCode)
      requires |data| % SECTOR == 0 && |spare| == SECTOR && loadFault != NO_ERROR
      ensures Valid() && Contents() == data && fresh(buf)
      ensures this.loadFault == loadFault && this.extendFault == extendFault && this.spare == spare
      ensures this.flushFault == flushFault
    {
      this.data := data;
      buf := new Byte[SECTOR](_ => 0);
      loaded := -1;
      mod := false;
      this.loadFault := loadFault;
      this.extendFault := extendFault;
      this.spare := spare;
      this.flushFault := flushFault;
    }

    /**
     * `BlockStorage::flush` of the content buffer: a modified buffer goes
     * back to the device, unless the device answers `flushFault`, which is
     * then returned with the buffer still modified.
     */
    method FlushBuffer() returns (err: ErrorCode)
      requires Valid()
      modifies this`data, this`mod
      ensures Valid() && loaded == old(loaded) && Contents() == old(Contents())
      ensures err == (if old(mod) then flushFault else NO_ERROR)
      ensures err == NO_ERROR ==> !mod && data == old(Contents())
      ensures err != NO_ERROR ==> mod && data == old(data)
    {
      if mod && flushFault != NO_ERROR {
        return flushFault;
      }
      WriteBack();
      return NO_ERROR;
    }

    /**
     * The write-back inside `load_sector_under_ptr`: a modified buffer goes
     * back to the device.
     */
    method WriteBack()
      requires Valid()
      modifies this`data, this`mod
      ensures Valid() && !mod && loaded == old(loaded)
      ensures data == old(Contents())
    {
      if mod {
        data := Overlay(data, loaded, buf[..]);
        mod := false;
        assert data[loaded * SECTOR..(loaded + 1) * SECTOR] == buf[..];
      }
    }

    /**
     * `load_sector_under_ptr`: the buffer comes to hold the sector under
     * `ptr`, after a modified buffer went back to the device; a pointer past
     * the chain answers `loadFault`. What the file reads is unchanged.
     */
    method LoadSectorUnderPtr(ptr: int) returns (err: ErrorCode)
      requires Valid()
      modifies this, buf
      ensures Valid() && Contents() == old(Contents())
      ensures 0 <= ptr < |data| ==> err == NO_ERROR && loaded == ptr / SECTOR
      ensures !(0 <= ptr < |data|) ==> err == loadFault
    {
      if !(0 <= ptr < |data|) {
        return loadFault;
      }
      if loaded == ptr / SECTOR {
        return NO_ERROR;
      }
      WriteBack();
      var k := ptr / SECTOR;
      SectorOf(ptr, |data|);
      forall i | 0 <= i < SECTOR {
        buf[i] := data[k * SECTOR + i];
      }
      loaded := k;
      assert buf[..] == data[loaded * SECTOR..(loaded + 1) * SECTOR];
      return NO_ERROR;
    }

    /** One byte of the loaded sector changes; the buffer is marked modified. */
    method WriteByte(ptr: nat, b: Byte)
      requires Valid() && ptr < |data| && loaded == ptr / SECTOR
      modifies this`mod, buf
      ensures Valid() && mod && data == old(data) && loaded == old(loaded)
      ensures Contents() == old(Contents())[ptr := b]
    {
      SectorOf(ptr, |data|);
      if !mod {
        OverlaySame(data, loaded);
      }
      OverlayUpdate(data, loaded, buf[..], ptr % SECTOR, b);
      buf[ptr % SECTOR] := b;
      mod := true;
    }

    /**
     * The file's chain grows by one sector when `ptr` has reached its end,
     * unless extending fails.
     */
    method Extend(ptr: nat) returns (err: ErrorCode)
      requires Valid()
      modifies this`data
      ensures Valid() && err == (if |old(data)| <= ptr then extendFault else NO_ERROR)
      ensures Contents() == if |old(data)| <= ptr && err == NO_ERROR then old(Contents()) + spare else old(Contents())
    {
      if |data| <= ptr {
        err := extendFault;
        if err == NO_ERROR {
          if mod {
            assert Overlay(data + spare, loaded, buf[..]) == Overlay(data, loaded, buf[..]) + spare;
          }
          data := data + spare;
        }
      } else {
        err := NO_ERROR;
      }
    }
  }

  /** The byte under `ptr` is where the loaded buffer holds it. */
  lemma BufferedByte(contents: seq<Byte>, data: seq<Byte>, buf: seq<Byte>, mod: bool, ptr: nat)
    requires ptr < |data| && |data| % SECTOR == 0 && |buf| == SECTOR
    requires (ptr / SECTOR + 1) * SECTOR <= |data|
    requires mod ==> contents == Overlay(data, ptr / SECTOR, buf)
    requires !mod ==> contents == data && buf == data[ptr / SECTOR * SECTOR..(ptr / SECTOR + 1) * SECTOR]
    ensures buf[ptr % SECTOR] == contents[ptr]
  {
    SectorOf(ptr, |data|);
    if mod {
      OverlayAt(data, ptr / SECTOR, buf, ptr);
    }
  }

  // ------------------------------------------------------- FatFileReader

  /** What `safe_get_char` answers, the character it read and where it leaves the pointer. */
  datatype Read = Read(err: ErrorCode, c: char, ptr: int)

  /**
   * `safe_get_char` on a file of `contents`: a closed file answers
   * `FILE_NOT_OPEN`; inside the bytes the chain holds, the byte under the
   * pointer is read and the pointer advances; elsewhere loading the sector
   * fails with `loadFault`. There is no test against the file's length: bytes
   * past it but inside the chain are read like any other.
   */
  function ReadOf(isOpen: bool, contents: seq<Byte>, ptr: int, loadFault: ErrorCode): (r: Read)
    requires loadFault != NO_ERROR
    ensures r.err == NO_ERROR <==> isOpen && 0 <= ptr < |contents|
    ensures r.err == NO_ERROR ==> r.c == CharOf(contents[ptr]) && r.ptr == ptr + 1
    ensures r.err != NO_ERROR ==> r.ptr == ptr
  {
    if !isOpen then Read(FILE_NOT_OPEN, NUL, ptr)
    else if 0 <= ptr < |contents| then Read(NO_ERROR, CharOf(contents[ptr]), ptr + 1)
    else Read(loadFault, NUL, ptr)
  }

  /**
   * `FatFileReader`: a `File` read through its `Chain`. `findResult` is what
   * searching the directory for its name answers, `openResult` what
   * `open_existing_file` answers and `entryLength` the length its directory
   * entry records.
   */
  class FatFileReader {
    const file: File
    const chain: Chain
    const findResult: ErrorCode
    const openResult: ErrorCode
    const entryLength: int

    ghost predicate Valid()
      reads this, chain, chain.buf
    {
      chain.Valid()
    }

    /** The bytes the reader reads. */
    ghost function Contents(): seq<Byte>
      reads this, chain, chain.buf
      requires Valid()
    {
      chain.Contents()
    }

    constructor (chain: Chain, findResult: ErrorCode, openResult: ErrorCode, entryLength: int)
      requires chain.Valid()
      ensures Valid() && fresh(file) && this.chain == chain && Contents() == old(chain.Contents())
      ensures file.length == -1 && file.ptr == 0 && file.error == NO_ERROR && !file.isOpen
      ensures this.findResult == findResult && this.openResult == openResult && this.entryLength == entryLength
    {
      file := new File();
      this.chain := chain;
      this.findResult := findResult;
      this.openResult := openResult;
      this.entryLength := entryLength;
    }

    /**
     * `open(offset, way)`: a name that is not found answers
     * `FILENAME_NOT_FOUND` (the directory search ends on its end-of-chain
     * marker) or the search's own error; otherwise the file is opened with
     * the length of its entry and the pointer is moved by `seek`.
     */
    method Open(offset: int, way: SeekDir) returns (err: ErrorCode)
      modifies file
      ensures findResult != NO_ERROR ==>
        err == (if findResult == FatFs.EOC_END then FILENAME_NOT_FOUND else findResult) && unchanged(file)
      ensures findResult == NO_ERROR && openResult != NO_ERROR ==> err == openResult && unchanged(file)
      ensures findResult == NO_ERROR && openResult == NO_ERROR ==>
        file.isOpen && file.length == entryLength && file.error == old(file.error) &&
        Sought(err, file.ptr) == SeekOf(entryLength, 0, offset, way)
    {
      if findResult != NO_ERROR {
        return if FatFs.EOC_END == findResult then FILENAME_NOT_FOUND else findResult;
      }
      if openResult != NO_ERROR {
        return openResult;
      }
      file.length, file.ptr := entryLength, 0;
      file.isOpen := true;
      err := file.Seek(offset, way);
    }

    /** `safe_get_char`. */
    method SafeGetChar() returns (err: ErrorCode, c: char)
      requires Valid()
      modifies file`ptr, chain, chain.buf
      ensures Valid() && Contents() == old(Contents())
      ensures Read(err, c, file.ptr) == ReadOf(file.isOpen, Contents(), old(file.ptr), chain.loadFault)
    {
      if !file.isOpen {
        return FILE_NOT_OPEN, NUL;
      }
      err := chain.LoadSectorUnderPtr(file.ptr);
      if err != NO_ERROR {
        return err, NUL;
      }
      BufferedByte(chain.Contents(), chain.data, chain.buf[..], chain.mod, file.ptr);
      c := CharOf(chain.buf[file.ptr % SECTOR]);
      file.ptr := file.ptr + 1;
    }

    /** `get_char`: the character read, or `(char) -1` with the error stored. */
    method GetChar() returns (c: char)
      requires Valid()
      modifies file`ptr, file`error, chain, chain.buf
      ensures Valid() && Contents() == old(Contents())
      ensures var r := ReadOf(file.isOpen, Contents(), old(file.ptr), chain.loadFault);
        file.ptr == r.ptr &&
        (r.err == NO_ERROR ==> c == r.c && file.error == old(file.error)) &&
        (r.err != NO_ERROR ==> c == READ_FAILED && file.error == r.err)
    {
      var err;
      err, c := SafeGetChar();
      if err != NO_ERROR {
        file.error := err;
        c := READ_FAILED;
      }
    }

    /**
     * `safe_peek` as written: a read, then the pointer steps back one even
     * when the read failed, leaving it one before where it was.
     */
    method SafePeek() returns (err: ErrorCode, c: char)
      requires Valid()
      modifies file`ptr, chain, chain.buf
      ensures Valid() && Contents() == old(Contents())
      ensures var r := ReadOf(file.isOpen, Contents(), old(file.ptr), chain.loadFault);
        err == r.err && c == r.c && file.ptr == r.ptr - 1
      ensures err == NO_ERROR ==> file.ptr == old(file.ptr)
      ensures err != NO_ERROR ==> file.ptr == old(file.ptr) - 1
    {
      err, c := SafeGetChar();
      file.ptr := file.ptr - 1;
    }

    /** `peek` as written: `get_char`, then the pointer steps back one whatever it answered. */
    method Peek() returns (c: char)
      requires Valid()
      modifies file`ptr, file`error, chain, chain.buf
      ensures Valid() && Contents() == old(Contents())
      ensures var r := ReadOf(file.isOpen, Contents(), old(file.ptr), chain.loadFault);
        file.ptr == r.ptr - 1 && c == (if r.err == NO_ERROR then r.c else READ_FAILED)
      ensures file.ptr == old(file.ptr) <==> file.isOpen && 0 <= old(file.ptr) < |Contents()|
    {
      c := GetChar();
      file.ptr := file.ptr - 1;
    }

    /** `eof`: the pointer is at the file's length. */
    predicate Eof()
      reads file
    {
      file.length == file.ptr
    }

    /** `get_error`. */
    function GetError(): ErrorCode
      reads file
    {
      file.error
    }

    /** `close`: a reader's `flush` has nothing to write, so closing always succeeds. */
    method Close() returns (err: ErrorCode)
      modifies file`isOpen
      ensures err == NO_ERROR && !file.isOpen
    {
      err := file.Close(NO_ERROR);
    }
  }

  /** Reading a file whose last byte ends its last sector: a peek at its end fails and leaves the pointer on that byte. */
  lemma PeekAtChainEnd(contents: seq<Byte>, loadFault: ErrorCode)
    requires contents != [] && loadFault != NO_ERROR
    ensures ReadOf(true, contents, |contents|, loadFault).err == loadFault
    ensures ReadOf(true, contents, |contents|, loadFault).ptr - 1 == |contents| - 1
  {
  }

  /** Reading `n` bytes from `p` yields them in order. */
  lemma {:induction false} ReadsInOrder(contents: seq<Byte>, p: nat, n: nat, loadFault: ErrorCode)
    requires p + n <= |contents| && loadFault != NO_ERROR
    ensures ReadsFrom(contents, p, n, loadFault) == Chars(contents[p..p + n])
    decreases n
  {
    if n > 0 {
      ReadsInOrder(contents, p + 1, n - 1, loadFault);
      assert contents[p..p + n] == [contents[p]] + contents[p + 1..p + n];
    }
  }

  /** The characters of bytes. */
  function Chars(bytes: seq<Byte>): (r: seq<char>)
    ensures |r| == |bytes|
  {
    if bytes == [] then [] else [CharOf(bytes[0])] + Chars(bytes[1..])
  }

  /** The characters `n` successive `safe_get_char` calls from `p` read, up to the first failure. */
  function ReadsFrom(contents: seq<Byte>, p: int, n: nat, loadFault: ErrorCode): seq<char>
    requires loadFault != NO_ERROR
    decreases n
  {
    var r := ReadOf(true, contents, p, loadFault);
    if n == 0 || r.err != NO_ERROR then [] else [r.c] + ReadsFrom(contents, r.ptr, n - 1, loadFault)
  }

  // ------------------------------------------------------- FatFileWriter

  /**
   * The offsets and values of a directory entry, from section 6 of the FAT
   * specification (fatgen103): an 8-character name and a 3-character
   * extension padded with spaces, the attribute byte, the high and low words
   * of the first cluster and the 32-bit file size.
   */
  const FILE_NAME_LEN: nat := 8
  const FILE_EXTENSION_LEN: nat := 3
  const FILE_ATTRIBUTE_OFFSET: nat := 0x0B
  const FILE_START_CLSTR_HIGH: nat := 0x14
  const FILE_START_CLSTR_LOW: nat := 0x1A
  const FILE_LEN_OFFSET: nat := 0x1C
  const FILE_ENTRY_LENGTH: nat := 32
  const ARCHIVE: Byte := 0x20
  const DELETED_FILE_MARK: Byte := 0xE5

  /** The bytes of a string, each character cast to `uint8_t`. */
  function Bytes(s: seq<char>): (r: seq<Byte>)
    ensures |r| == |s| && forall i :: 0 <= i < |s| ==> r[i] == ByteOf(s[i])
  {
    if s == [] then [] else [ByteOf(s[0])] + Bytes(s[1..])
  }

  /** The bytes of one character more. */
  lemma BytesSnoc(s: seq<char>, i: nat)
    requires i < |s|
    ensures Bytes(s[..i]) + [ByteOf(s[i])] == Bytes(s[..i + 1])
  {
  }

  /** Up to `strlen`, the name's characters are not NUL, and at `strlen` it ends. */
  lemma NulAt(name: seq<char>, k: nat)
    requires k <= StrLen(name)
    ensures At(name, k) == NUL <==> k == StrLen(name)
  {
  }

  /** The bytes of one character more of a slice. */
  lemma ExtensionSnoc(s: seq<char>, a: nat, k: nat)
    requires a <= k < |s|
    ensures Bytes(s[a..k]) + [ByteOf(s[k])] == Bytes(s[a..k + 1])
  {
  }

  /** Reading back the bytes of characters that fit a byte gives the characters. */
  lemma {:induction false} CharsOfBytes(s: seq<char>)
    requires forall i :: 0 <= i < |s| ==> s[i] as int < TWO_8
    ensures Chars(Bytes(s)) == s
  {
    if s != [] {
      CharsOfBytes(s[1..]);
      assert Bytes(s)[1..] == Bytes(s[1..]);
    }
  }

  /** A writer's state as `safe_put_char` sees it: open, the bytes, the length, the pointer and the length-modified flag. */
  datatype WriterState = WriterState(isOpen: bool, contents: seq<Byte>, length: int, ptr: nat, flagged: bool)

  /** What the medium answers a writer: extending the chain, loading a sector outside it, and a new sector's bytes. */
  datatype Medium = Medium(extendFault: ErrorCode, loadFault: ErrorCode, spare: seq<Byte>)

  /** What a write answers and the state it leaves. */
  datatype Put = Put(err: ErrorCode, w: WriterState)

  /**
   * `safe_put_char`: a closed file answers `FILE_NOT_OPEN`; a pointer at the
   * chain's end first extends the chain; the byte under the pointer is
   * overwritten and the pointer advances; writing at the length grows the
   * length by one and flags it for the directory entry.
   */
  function PutOf(w: WriterState, c: char, m: Medium): (r: Put)
    requires m.loadFault != NO_ERROR
    ensures r.err == NO_ERROR ==> w.isOpen && r.w.ptr == w.ptr + 1 && w.ptr < |r.w.contents|
    ensures r.err == NO_ERROR ==> r.w.contents[w.ptr] == ByteOf(c) && |w.contents| <= |r.w.contents|
    ensures r.err == NO_ERROR ==> forall i :: 0 <= i < |w.contents| && i != w.ptr ==> r.w.contents[i] == w.contents[i]
    ensures r.err == NO_ERROR ==> r.w.length == (if w.length == w.ptr then w.length + 1 else w.length)
    ensures r.err == NO_ERROR ==> r.w.flagged == (w.flagged || w.length == w.ptr) && r.w.isOpen
    ensures r.err != NO_ERROR ==> r.w == w.(contents := r.w.contents) && w.contents <= r.w.contents
    ensures !w.isOpen ==> r == Put(FILE_NOT_OPEN, w)
    ensures w.isOpen && w.ptr < |w.contents| ==> r.err == NO_ERROR && |r.w.contents| == |w.contents|
  {
    if !w.isOpen then Put(FILE_NOT_OPEN, w)
    else if |w.contents| <= w.ptr && m.extendFault != NO_ERROR then Put(m.extendFault, w)
    else
      var grown := if |w.contents| <= w.ptr then w.contents + m.spare else w.contents;
      if |grown| <= w.ptr then Put(m.loadFault, w.(contents := grown))
      else
        Put(NO_ERROR, WriterState(true, grown[w.ptr := ByteOf(c)], if w.length == w.ptr then w.length + 1 else w.length,
                                  w.ptr + 1, w.flagged || w.length == w.ptr))
  }

  /** `safe_puts`: the characters up to the first NUL, one `safe_put_char` each, stopping at the first error. */
  function PutsOf(w: WriterState, s: seq<char>, m: Medium): (r: Put)
    requires m.loadFault != NO_ERROR
    decreases |s|
  {
    if s == [] || s[0] == NUL then Put(NO_ERROR, w)
    else
      var p := PutOf(w, s[0], m);
      if p.err != NO_ERROR then p else PutsOf(p.w, s[1..], m)
  }

  /** The length after `n` writes from `p`: it grows with the pointer once the pointer has reached it. */
  function LengthAfter(length: int, p: nat, n: nat): int
  {
    if p <= length then (if length < p + n then p + n else length) else length
  }

  /**
   * `r` is what writing all of `s` from `w` leaves: no error, the pointer past
   * the characters, the bytes before the pointer kept, the characters' bytes
   * after it, and the length and its flag as the writes move them.
   */
  ghost predicate Wrote(w: WriterState, s: seq<char>, r: Put)
  {
    r.err == NO_ERROR && r.w.isOpen &&
    r.w.ptr == w.ptr + |s| <= |r.w.contents| && w.ptr <= |w.contents| &&
    r.w.contents[..w.ptr] == w.contents[..w.ptr] &&
    r.w.contents[w.ptr..w.ptr + |s|] == Bytes(s) &&
    r.w.length == LengthAfter(w.length, w.ptr, |s|) &&
    r.w.flagged == (w.flagged || w.ptr <= w.length < w.ptr + |s|)
  }

  /** One character written at the pointer, then the rest of `s`: all of `s` written. */
  lemma WroteStep(w: WriterState, s: seq<char>, p: WriterState, r: Put)
    requires s != [] && w.ptr <= |w.contents| && p.ptr == w.ptr + 1 && w.ptr < |p.contents|
    requires p.contents[w.ptr] == ByteOf(s[0]) && |w.contents| <= |p.contents|
    requires forall i :: 0 <= i < |w.contents| && i != w.ptr ==> p.contents[i] == w.contents[i]
    requires p.length == (if w.length == w.ptr then w.length + 1 else w.length)
    requires p.flagged == (w.flagged || w.length == w.ptr)
    requires Wrote(p, s[1..], r)
    ensures Wrote(w, s, r)
  {
    var c := r.w.contents;
    assert c[..w.ptr] == c[..p.ptr][..w.ptr];
    assert p.contents[..w.ptr] == w.contents[..w.ptr];
    assert c[..w.ptr] == p.contents[..p.ptr][..w.ptr];
    assert c[w.ptr] == ByteOf(s[0]) by {
      assert c[..p.ptr][w.ptr] == p.contents[..p.ptr][w.ptr];
    }
    assert c[w.ptr..w.ptr + |s|] == [c[w.ptr]] + c[p.ptr..p.ptr + |s[1..]|];
  }

  /**
   * Writing a string with no NUL into an open file whose pointer is inside
   * its chain, on a medium that can extend the chain: every character is
   * written, in order, at the pointer; the bytes before it are kept; the
   * length grows to cover what was written when the pointer started inside
   * the file, and is flagged exactly when it grew.
   */
  lemma {:induction false} PutsWrites(w: WriterState, s: seq<char>, m: Medium)
    requires w.isOpen && w.ptr <= |w.contents| && m.extendFault == NO_ERROR && m.loadFault != NO_ERROR && |m.spare| > 0
    requires forall i :: 0 <= i < |s| ==> s[i] != NUL
    ensures PutsOf(w, s, m).err == NO_ERROR
    ensures PutsOf(w, s, m).w.ptr == w.ptr + |s| <= |PutsOf(w, s, m).w.contents|
    ensures PutsOf(w, s, m).w.contents[..w.ptr] == w.contents[..w.ptr]
    ensures PutsOf(w, s, m).w.contents[w.ptr..w.ptr + |s|] == Bytes(s)
    ensures PutsOf(w, s, m).w.length == LengthAfter(w.length, w.ptr, |s|)
    ensures PutsOf(w, s, m).w.flagged == (w.flagged || w.ptr <= w.length < w.ptr + |s|)
    ensures PutsOf(w, s, m).w.isOpen
    decreases |s|
  {
    PutsWrote(w, s, m);
  }

  /** `PutsWrites`, stated as `Wrote`. */
  lemma {:induction false} PutsWrote(w: WriterState, s: seq<char>, m: Medium)
    requires w.isOpen && w.ptr <= |w.contents| && m.extendFault == NO_ERROR && m.loadFault != NO_ERROR && |m.spare| > 0
    requires forall i :: 0 <= i < |s| ==> s[i] != NUL
    ensures Wrote(w, s, PutsOf(w, s, m))
    decreases |s|
  {
    if s != [] {
      var p := PutOf(w, s[0], m);
      assert p.err == NO_ERROR;
      PutsWrote(p.w, s[1..], m);
      assert PutsOf(w, s, m) == PutsOf(p.w, s[1..], m);
      WroteStep(w, s, p.w, PutsOf(w, s, m));
    } else {
      assert w.contents[w.ptr..w.ptr] == [] == Bytes(s);
    }
  }

  /** Written, then read back from where the writing started: the same characters. */
  lemma WrittenReadsBack(w: WriterState, s: seq<char>, m: Medium)
    requires w.isOpen && w.ptr <= |w.contents| && m.extendFault == NO_ERROR && m.loadFault != NO_ERROR && |m.spare| > 0
    requires forall i :: 0 <= i < |s| ==> s[i] != NUL && s[i] as int < TWO_8
    ensures ReadsFrom(PutsOf(w, s, m).w.contents, w.ptr, |s|, m.loadFault) == s
  {
    PutsWrote(w, s, m);
    BytesReadBack(PutsOf(w, s, m).w.contents, w.ptr, s, m.loadFault);
  }

  /** Bytes of `s` at `p` read back, from `p`, as `s`. */
  lemma BytesReadBack(contents: seq<Byte>, p: nat, s: seq<char>, loadFault: ErrorCode)
    requires p + |s| <= |contents| && contents[p..p + |s|] == Bytes(s) && loadFault != NO_ERROR
    requires forall i :: 0 <= i < |s| ==> s[i] as int < TWO_8
    ensures ReadsFrom(contents, p, |s|, loadFault) == s
  {
    ReadsInOrder(contents, p, |s|, loadFault);
    CharsOfBytes(s);
  }

  /**
   * The length `trim` leaves, as written: one less than the pointer. Trimming
   * with the pointer at 0, as a save does, leaves -1.
   */
  function TrimmedLengthAsWritten(ptr: nat): (length: int)
    ensures length + 1 == ptr
  {
    ptr - 1
  }

  /**
   * As written, after trimming at the start every write misses the length:
   * a pointer at 0 never meets a length of -1, so the length stays -1 and is
   * stored in the directory entry as 0xFFFFFFFF.
   */
  lemma TrimThenWriteAsWritten(w: WriterState, s: seq<char>, m: Medium)
    requires w.isOpen && w.ptr == 0 && w.length == TrimmedLengthAsWritten(0) && m.extendFault == NO_ERROR
    requires m.loadFault != NO_ERROR && |m.spare| > 0 && s != [] && forall i :: 0 <= i < |s| ==> s[i] != NUL
    ensures PutsOf(w, s, m).w.length == -1
    ensures PutsOf(w, s, m).w.length % TWO_32 == 0xFFFF_FFFF
  {
    PutsWrites(w, s, m);
  }

  /** The length `trim` should leave: the pointer, so that the pointer is the file's end. */
  function TrimmedLength(ptr: nat): (length: nat)
    ensures length == ptr && TrimmedLengthAsWritten(ptr) == length - 1
  {
    ptr
  }

  /** Trimmed at the start, then written: the length is exactly what was written. */
  lemma TrimThenWrite(w: WriterState, s: seq<char>, m: Medium)
    requires w.isOpen && w.ptr == 0 && w.length == TrimmedLength(0) && m.extendFault == NO_ERROR
    requires m.loadFault != NO_ERROR && |m.spare| > 0 && forall i :: 0 <= i < |s| ==> s[i] != NUL
    ensures PutsOf(w, s, m).w.length == |s|
  {
    PutsWrites(w, s, m);
  }

  // ------------------------------------------------------- directory entry

  /** The name's character at `i`, the end of the string reading as its NUL. */
  function At(name: seq<char>, i: nat): char
  {
    if i < |name| then name[i] else NUL
  }

  /** `not_period_or_end`. */
  predicate NotPeriodOrEnd(c: char)
  {
    '.' != c && c != NUL
  }

  /** The length of the name's base: up to its first '.', NUL or end. */
  function BaseLength(name: seq<char>): (k: nat)
    ensures k <= |name| && !NotPeriodOrEnd(At(name, k))
    ensures forall i :: 0 <= i < k ==> NotPeriodOrEnd(name[i])
  {
    if name == [] || !NotPeriodOrEnd(name[0]) then 0 else 1 + BaseLength(name[1..])
  }

  /** `n` spaces (none when `n` is not positive). */
  function Spaces(n: int): (r: seq<Byte>)
    ensures |r| == (if n < 0 then 0 else n) && forall i :: 0 <= i < |r| ==> r[i] == 32
  {
    if n <= 0 then [] else [32] + Spaces(n - 1)
  }

  /** A name that has an extension: its base ends on a '.'. */
  predicate HasExtension(name: seq<char>)
  {
    At(name, BaseLength(name)) != NUL
  }

  /** Where the name's extension starts: after the base and its '.'. */
  function ExtensionStart(name: seq<char>): (e: nat)
    requires HasExtension(name)
    ensures e == BaseLength(name) + 1 <= StrLen(name)
  {
    BaseLength(name) + 1
  }

  /** The extension: everything from after the first '.' up to the NUL. */
  function Extension(name: seq<char>): seq<char>
    requires HasExtension(name)
  {
    name[ExtensionStart(name)..StrLen(name)]
  }

  /**
   * The bytes `write_filename` writes from the start of the entry: the base,
   * spaces up to 8, the extension (when there is one), spaces up to 11. A
   * base longer than 8 or an extension longer than 3 is written whole, past
   * the 11 name bytes.
   */
  function NameBytes(name: seq<char>): (r: seq<Byte>)
    ensures FILE_NAME_LEN + FILE_EXTENSION_LEN <= |r| && BaseLength(name) <= |r|
    ensures r[..BaseLength(name)] == Bytes(name[..BaseLength(name)])
    ensures HasExtension(name) ==> |NameHead(name)| + |Extension(name)| <= |r|
  {
    var k := BaseLength(name);
    if !HasExtension(name) then Bytes(name[..k]) + Spaces(FILE_NAME_LEN + FILE_EXTENSION_LEN - k)
    else
      NameHead(name) + Bytes(Extension(name))
      + Spaces(FILE_NAME_LEN + FILE_EXTENSION_LEN - |NameHead(name)| - |Extension(name)|)
  }

  /** The base padded with spaces to 8, as written before an extension. */
  function NameHead(name: seq<char>): (r: seq<Byte>)
    ensures |r| == Max(BaseLength(name), FILE_NAME_LEN)
  {
    Bytes(name[..BaseLength(name)]) + Spaces(FILE_NAME_LEN - BaseLength(name))
  }

  function Max(a: int, b: int): int
  {
    if a < b then b else a
  }

  /** An 8.3 name: a base of at most 8 characters and an extension of at most 3. */
  predicate ShortName(name: seq<char>)
  {
    BaseLength(name) <= FILE_NAME_LEN && (HasExtension(name) ==> |Extension(name)| <= FILE_EXTENSION_LEN)
  }

  /**
   * An 8.3 name is written as the 11 bytes of section 6.1 of the FAT
   * specification: the base padded with spaces to 8, then the extension
   * padded to 3.
   */
  lemma ShortNameBytes(name: seq<char>)
    requires ShortName(name)
    ensures |NameBytes(name)| == FILE_NAME_LEN + FILE_EXTENSION_LEN
    ensures NameBytes(name)[..FILE_NAME_LEN] == Bytes(name[..BaseLength(name)]) + Spaces(FILE_NAME_LEN - BaseLength(name))
    ensures !HasExtension(name) ==> NameBytes(name)[FILE_NAME_LEN..] == Spaces(FILE_EXTENSION_LEN)
    ensures HasExtension(name) ==>
      NameBytes(name)[FILE_NAME_LEN..] == Bytes(Extension(name)) + Spaces(FILE_EXTENSION_LEN - |Extension(name)|)
  {
    var k := BaseLength(name);
    var base := Bytes(name[..k]) + Spaces(FILE_NAME_LEN - k);
    if !HasExtension(name) {
      ShortBaseBytes(name, k, base);
    } else {
      ShortExtensionBytes(name, k, base);
    }
  }

  /** A short name without an extension: the base and 3 spaces. */
  lemma ShortBaseBytes(name: seq<char>, k: nat, base: seq<Byte>)
    requires ShortName(name) && !HasExtension(name) && k == BaseLength(name)
    requires base == Bytes(name[..k]) + Spaces(FILE_NAME_LEN - k)
    ensures NameBytes(name) == base + Spaces(FILE_EXTENSION_LEN) && |base| == FILE_NAME_LEN
  {
    var pad := FILE_NAME_LEN - k;
    var n := FILE_NAME_LEN + FILE_EXTENSION_LEN - k;
    var b := Bytes(name[..k]);
    assert NameBytes(name) == b + Spaces(n);
    SpacesSplit(pad, FILE_EXTENSION_LEN, n);
    Associate(b, Spaces(pad), Spaces(FILE_EXTENSION_LEN));
  }

  /** A short name with an extension: the base, then the extension padded to 3. */
  lemma ShortExtensionBytes(name: seq<char>, k: nat, base: seq<Byte>)
    requires ShortName(name) && HasExtension(name) && k == BaseLength(name)
    requires base == Bytes(name[..k]) + Spaces(FILE_NAME_LEN - k)
    ensures NameBytes(name) == base + (Bytes(Extension(name)) + Spaces(FILE_EXTENSION_LEN - |Extension(name)|))
    ensures |base| == FILE_NAME_LEN
  {
    var ext := Extension(name);
    var e := Bytes(ext);
    var m := FILE_NAME_LEN + FILE_EXTENSION_LEN - |NameHead(name)| - |ext|;
    assert NameHead(name) == base;
    assert m == FILE_EXTENSION_LEN - |ext|;
    assert NameBytes(name) == base + e + Spaces(m);
  }

  /** One space more. */
  lemma SpacesSnoc(n: nat, m: nat)
    requires m == n + 1
    ensures Spaces(n) + [32] == Spaces(m)
  {
    SpacesSplit(n, 1, m);
  }

  /** Spaces are spaces however they are split. */
  lemma SpacesSplit(a: nat, b: nat, n: nat)
    requires n == a + b
    ensures Spaces(n) == Spaces(a) + Spaces(b)
  {
    var l, r := Spaces(n), Spaces(a) + Spaces(b);
    forall i | 0 <= i < |l|
      ensures l[i] == r[i]
    {
    }
  }

  /** `d` with `bytes` written from `at`. */
  function Written(d: seq<Byte>, at: nat, bytes: seq<Byte>): (r: seq<Byte>)
    requires at + |bytes| <= |d|
    ensures |r| == |d|
  {
    d[..at] + bytes + d[at + |bytes|..]
  }

  /** Writing one more byte after those written extends them. */
  lemma WrittenSnoc(d: seq<Byte>, at: nat, bytes: seq<Byte>, b: Byte)
    requires at + |bytes| < |d|
    ensures Written(d, at, bytes)[at + |bytes| := b] == Written(d, at, bytes + [b])
  {
    assert Written(d, at, bytes)[at + |bytes| := b] == d[..at] + (bytes + [b]) + d[at + |bytes| + 1..];
  }

  /** Writing `b` after `a` is writing `a + b`. */
  lemma WrittenAppend(d: seq<Byte>, at: nat, a: seq<Byte>, b: seq<Byte>)
    requires at + |a| + |b| <= |d|
    ensures Written(Written(d, at, a), at + |a|, b) == Written(d, at, a + b)
  {
    var w := Written(d, at, a);
    assert w[..at + |a|] == d[..at] + a;
    assert w[at + |a| + |b|..] == d[at + |a| + |b|..];
  }

  /** The base written, then spaces up to 8: the name's head written. */
  lemma HeadPadded(d: seq<Byte>, at: nat, name: seq<char>, d2: seq<Byte>)
    requires at + |NameHead(name)| <= |d|
    requires d2 == Written(Written(d, at, Bytes(name[..BaseLength(name)])), at + BaseLength(name),
                           Spaces(FILE_NAME_LEN - BaseLength(name)))
    ensures d2 == Written(d, at, NameHead(name))
  {
    var k := BaseLength(name);
    WrittenAppend(d, at, Bytes(name[..k]), Spaces(FILE_NAME_LEN - k));
  }

  /** The head and the extension written, then spaces up to 11: the name's bytes written. */
  lemma TailPadded(d: seq<Byte>, at: nat, name: seq<char>, d2: seq<Byte>)
    requires HasExtension(name) && at + |NameBytes(name)| <= |d|
    requires d2 == Written(Written(d, at, NameHead(name) + Bytes(Extension(name))),
                           at + |NameHead(name)| + |Extension(name)|,
                           Spaces(FILE_NAME_LEN + FILE_EXTENSION_LEN - (|NameHead(name)| + |Extension(name)|)))
    ensures d2 == Written(d, at, NameBytes(name))
  {
    var written := NameHead(name) + Bytes(Extension(name));
    var pad := Spaces(FILE_NAME_LEN + FILE_EXTENSION_LEN - |written|);
    WrittenAppend(d, at, written, pad);
  }

  /** The directory sector after `create_new_file` writes a new entry at `at`. */
  function EntryCreated(d: seq<Byte>, at: nat, name: seq<char>, allocUnit: nat, fsType: nat): (r: seq<Byte>)
    requires |d| == SECTOR && at + FILE_ENTRY_LENGTH <= SECTOR && at + |NameBytes(name)| <= SECTOR && allocUnit < TWO_32
    ensures |r| == SECTOR
  {
    var named := Written(d, at, NameBytes(name))[at + FILE_ATTRIBUTE_OFFSET := ARCHIVE];
    Sd.LongWritten(Located(named, at, allocUnit, fsType), at + FILE_LEN_OFFSET, 0)
  }

  /** The directory sector after `get_fat_location` records the first cluster of the entry at `at`. */
  function Located(d: seq<Byte>, at: nat, allocUnit: nat, fsType: nat): (r: seq<Byte>)
    requires |d| == SECTOR && at + FILE_ENTRY_LENGTH <= SECTOR && allocUnit < TWO_32
    ensures |r| == SECTOR
  {
    var low := Sd.ShortWritten(d, at + FILE_START_CLSTR_LOW, allocUnit % TWO_16);
    if fsType == FatFs.FAT_32 then Sd.ShortWritten(low, at + FILE_START_CLSTR_HIGH, allocUnit / TWO_16) else low
  }

  /**
   * A created entry reads back as a new file: an 8.3 name in its first 11
   * bytes, the archive attribute, the allocated cluster as its first cluster
   * (its high word only on FAT32) and a size of 0; the rest of the sector is
   * unchanged.
   */
  lemma CreatedEntry(d: seq<Byte>, at: nat, name: seq<char>, allocUnit: nat, fsType: nat)
    requires |d| == SECTOR && at + FILE_ENTRY_LENGTH <= SECTOR && allocUnit < TWO_32 && ShortName(name)
    ensures at + |NameBytes(name)| <= SECTOR
    ensures EntryCreated(d, at, name, allocUnit, fsType)[at..at + 11] == NameBytes(name)
    ensures EntryCreated(d, at, name, allocUnit, fsType)[at + FILE_ATTRIBUTE_OFFSET] == ARCHIVE
    ensures Sd.GetShort(EntryCreated(d, at, name, allocUnit, fsType), at + FILE_START_CLSTR_LOW) == allocUnit % TWO_16
    ensures fsType == FatFs.FAT_32 ==>
      Sd.GetShort(EntryCreated(d, at, name, allocUnit, fsType), at + FILE_START_CLSTR_HIGH) == allocUnit / TWO_16
    ensures Sd.GetLong(EntryCreated(d, at, name, allocUnit, fsType), at + FILE_LEN_OFFSET) == 0
    ensures forall i :: 0 <= i < SECTOR && !(at <= i < at + FILE_ENTRY_LENGTH) ==> EntryCreated(d, at, name, allocUnit, fsType)[i] == d[i]
  {
    ShortNameBytes(name);
    CreatedName(d, at, name, allocUnit, fsType);
    CreatedFields(d, at, name, allocUnit, fsType);
  }

  /** The name, the attribute and the bytes outside the entry of a created entry. */
  lemma CreatedName(d: seq<Byte>, at: nat, name: seq<char>, allocUnit: nat, fsType: nat)
    requires |d| == SECTOR && at + FILE_ENTRY_LENGTH <= SECTOR && allocUnit < TWO_32 && |NameBytes(name)| == 11
    ensures EntryCreated(d, at, name, allocUnit, fsType)[at..at + 11] == NameBytes(name)
    ensures EntryCreated(d, at, name, allocUnit, fsType)[at + FILE_ATTRIBUTE_OFFSET] == ARCHIVE
    ensures forall i :: 0 <= i < SECTOR && !(at <= i < at + FILE_ENTRY_LENGTH) ==> EntryCreated(d, at, name, allocUnit, fsType)[i] == d[i]
  {
    var w := Written(d, at, NameBytes(name));
    var named := w[at + FILE_ATTRIBUTE_OFFSET := ARCHIVE];
    LocatedFields(named, at, allocUnit, fsType);
    var loc := Located(named, at, allocUnit, fsType);
    var e := Sd.LongWritten(loc, at + FILE_LEN_OFFSET, 0);
    assert e == EntryCreated(d, at, name, allocUnit, fsType);
    forall i | at <= i < at + 11
      ensures e[i] == NameBytes(name)[i - at]
    {
      assert e[i] == loc[i] == named[i] == w[i];
    }
    assert e[at..at + 11] == NameBytes(name);
    forall i | 0 <= i < SECTOR && !(at <= i < at + FILE_ENTRY_LENGTH)
      ensures e[i] == d[i]
    {
      assert e[i] == loc[i] == named[i] == w[i];
    }
  }

  /** The first cluster and the size of a created entry. */
  lemma CreatedFields(d: seq<Byte>, at: nat, name: seq<char>, allocUnit: nat, fsType: nat)
    requires |d| == SECTOR && at + FILE_ENTRY_LENGTH <= SECTOR && allocUnit < TWO_32 && |NameBytes(name)| == 11
    ensures Sd.GetShort(EntryCreated(d, at, name, allocUnit, fsType), at + FILE_START_CLSTR_LOW) == allocUnit % TWO_16
    ensures fsType == FatFs.FAT_32 ==>
      Sd.GetShort(EntryCreated(d, at, name, allocUnit, fsType), at + FILE_START_CLSTR_HIGH) == allocUnit / TWO_16
    ensures Sd.GetLong(EntryCreated(d, at, name, allocUnit, fsType), at + FILE_LEN_OFFSET) == 0
  {
    var named := Written(d, at, NameBytes(name))[at + FILE_ATTRIBUTE_OFFSET := ARCHIVE];
    LocatedFields(named, at, allocUnit, fsType);
    var loc := Located(named, at, allocUnit, fsType);
    var e := Sd.LongWritten(loc, at + FILE_LEN_OFFSET, 0);
    assert e[at + FILE_START_CLSTR_LOW] == loc[at + FILE_START_CLSTR_LOW];
    assert e[at + FILE_START_CLSTR_LOW + 1] == loc[at + FILE_START_CLSTR_LOW + 1];
    assert e[at + FILE_START_CLSTR_HIGH] == loc[at + FILE_START_CLSTR_HIGH];
    assert e[at + FILE_START_CLSTR_HIGH + 1] == loc[at + FILE_START_CLSTR_HIGH + 1];
  }

  /** Whether byte `i` holds one of the first-cluster words of the entry at `at`. */
  predicate ClusterField(at: nat, i: nat)
  {
    at + FILE_START_CLSTR_LOW <= i < at + FILE_START_CLSTR_LOW + 2 || at + FILE_START_CLSTR_HIGH <= i < at + FILE_START_CLSTR_HIGH + 2
  }

  /** `get_fat_location` writes the first-cluster words and nothing else. */
  lemma LocatedFields(d: seq<Byte>, at: nat, allocUnit: nat, fsType: nat)
    requires |d| == SECTOR && at + FILE_ENTRY_LENGTH <= SECTOR && allocUnit < TWO_32
    ensures Sd.GetShort(Located(d, at, allocUnit, fsType), at + FILE_START_CLSTR_LOW) == allocUnit % TWO_16
    ensures fsType == FatFs.FAT_32 ==> Sd.GetShort(Located(d, at, allocUnit, fsType), at + FILE_START_CLSTR_HIGH) == allocUnit / TWO_16
    ensures forall i :: 0 <= i < SECTOR && !ClusterField(at, i) ==> Located(d, at, allocUnit, fsType)[i] == d[i]
  {
    var low := Sd.ShortWritten(d, at + FILE_START_CLSTR_LOW, allocUnit % TWO_16);
    if fsType == FatFs.FAT_32 {
      var high := Sd.ShortWritten(low, at + FILE_START_CLSTR_HIGH, allocUnit / TWO_16);
      assert high[at + FILE_START_CLSTR_LOW] == low[at + FILE_START_CLSTR_LOW];
      assert high[at + FILE_START_CLSTR_LOW + 1] == low[at + FILE_START_CLSTR_LOW + 1];
    }
  }

  /**
   * `FatFileWriter`: a `File` written through its `Chain`, with the
   * length-modified flag of `FileWriter`. `dir` is the directory sector that
   * holds the file's entry, at `entryOffset`. The constant fields are the
   * answers of the parts of `FatFile` and `FatFS` that are not modelled here:
   * the directory search, extending the directory, `open_existing_file`, the
   * allocation unit `find_empty_space` hands a new file, `trim_chain`,
   * `clear_chain`, and the device's answers to flushing the directory sector
   * and to `load_directory_sector`.
   */
  class FatFileWriter {
    const file: File
    const chain: Chain
    var metadataModified: bool
    /** The entry has been found and opened (the source's non-zero `m_dirTier1Addr`). */
    var located: bool
    const name: seq<char>
    const dir: array<Byte>
    const entryOffset: nat
    const fsType: nat
    const findResult: ErrorCode
    const extendDirResult: ErrorCode
    const openResult: ErrorCode
    const allocUnit: nat
    const trimResult: ErrorCode
    const clearResult: ErrorCode
    const dirFlushResult: ErrorCode
    const dirLoadResult: ErrorCode

    ghost predicate Valid()
      reads this, file, chain, chain.buf
    {
      chain.Valid() && dir.Length == SECTOR && dir != chain.buf && 0 <= file.ptr && allocUnit < TWO_32 &&
      entryOffset + FILE_ENTRY_LENGTH <= SECTOR && entryOffset + |NameBytes(name)| <= SECTOR
    }

    /** The writer as `safe_put_char` sees it. */
    ghost function State(): WriterState
      reads this, file, chain, chain.buf
      requires Valid()
    {
      WriterState(file.isOpen, chain.Contents(), file.length, file.ptr, metadataModified)
    }

    /** What the medium answers this writer. */
    function Answers(): Medium
      reads chain
    {
      Medium(chain.extendFault, chain.loadFault, chain.spare)
    }

    constructor (chain: Chain, name: seq<char>, dir: array<Byte>, entryOffset: nat, fsType: nat,
                 findResult: ErrorCode, extendDirResult: ErrorCode, openResult: ErrorCode, allocUnit: nat,
                 trimResult: ErrorCode, clearResult: ErrorCode, dirFlushResult: ErrorCode, dirLoadResult: ErrorCode)
      requires chain.Valid() && dir.Length == SECTOR && dir != chain.buf && allocUnit < TWO_32
      requires entryOffset + FILE_ENTRY_LENGTH <= SECTOR && entryOffset + |NameBytes(name)| <= SECTOR
      ensures Valid() && fresh(file) && this.chain == chain && this.dir == dir && State() == WriterState(false, old(chain.Contents()), -1, 0, false)
      ensures !located && this.name == name && this.entryOffset == entryOffset && this.fsType == fsType
      ensures this.findResult == findResult && this.extendDirResult == extendDirResult && this.openResult == openResult
      ensures this.allocUnit == allocUnit && this.trimResult == trimResult && this.clearResult == clearResult
      ensures this.dirFlushResult == dirFlushResult && this.dirLoadResult == dirLoadResult
    {
      file := new File();
      this.chain := chain;
      metadataModified := false;
      located := false;
      this.name := name;
      this.dir := dir;
      this.entryOffset := entryOffset;
      this.fsType := fsType;
      this.findResult := findResult;
      this.extendDirResult := extendDirResult;
      this.openResult := openResult;
      this.allocUnit := allocUnit;
      this.trimResult := trimResult;
      this.clearResult := clearResult;
      this.dirFlushResult := dirFlushResult;
      this.dirLoadResult := dirLoadResult;
    }

    /** Whether `open` creates the file: its name was not found and, at the directory's end, the directory could grow. */
    predicate Creates()
    {
      (findResult == FatFs.EOC_END && extendDirResult == NO_ERROR) || findResult == FILENAME_NOT_FOUND
    }

    /**
     * `open(offset, way)`: a name not found is created (after growing the
     * directory when the search ran to its end); any other search error, a
     * failed directory extension or a failed `open_existing_file` is answered
     * as is; otherwise the file opens with the length its entry records and
     * the pointer is moved by `seek`.
     */
    method Open(offset: int, way: SeekDir) returns (err: ErrorCode)
      requires Valid()
      modifies file`isOpen, file`length, file`ptr, dir, this`located
      ensures Valid()
      ensures findResult != NO_ERROR && !Creates() ==>
        err == (if findResult == FatFs.EOC_END then extendDirResult else findResult) && unchanged(file, dir, this)
      ensures findResult == NO_ERROR || Creates() ==>
        dir[..] == if Creates() then EntryCreated(old(dir[..]), entryOffset, name, allocUnit, fsType) else old(dir[..])
      ensures (findResult == NO_ERROR || Creates()) && openResult != NO_ERROR ==> err == openResult && unchanged(file, this)
      ensures (findResult == NO_ERROR || Creates()) && openResult == NO_ERROR ==>
        file.isOpen && located && file.length == Sd.GetLong(dir[..], entryOffset + FILE_LEN_OFFSET) &&
        Sought(err, file.ptr) == SeekOf(file.length, 0, offset, way)
    {
      err := FindOrCreate();
      if err != NO_ERROR {
        return;
      }
      err := OpenExistingFile();
      if err != NO_ERROR {
        return;
      }
      file.isOpen := true;
      err := file.Seek(offset, way);
    }

    /** The search of `open`, and the creation of an entry for a name that is not found. */
    method FindOrCreate() returns (err: ErrorCode)
      requires Valid()
      modifies dir
      ensures findResult != NO_ERROR && !Creates() ==>
        err == (if findResult == FatFs.EOC_END then extendDirResult else findResult) && err != NO_ERROR &&
        unchanged(dir)
      ensures findResult == NO_ERROR || Creates() ==>
        err == NO_ERROR &&
        dir[..] == if Creates() then EntryCreated(old(dir[..]), entryOffset, name, allocUnit, fsType) else old(dir[..])
    {
      if findResult != NO_ERROR {
        if findResult == FatFs.EOC_END && extendDirResult != NO_ERROR {
          return extendDirResult;
        }
        if findResult == FatFs.EOC_END || findResult == FILENAME_NOT_FOUND {
          err := CreateNewFile();
        } else {
          return findResult;
        }
      }
      return NO_ERROR;
    }

    /**
     * `safe_put_char`: see `PutOf`. The chain is extended when the pointer
     * has reached its end (`need_to_extend_fat`), the sector under the
     * pointer is loaded, and the byte is written into the buffer.
     */
    method SafePutChar(c: char) returns (err: ErrorCode)
      requires Valid()
      modifies file`length, file`ptr, chain, chain.buf, this`metadataModified
      ensures Valid() && Put(err, State()) == PutOf(old(State()), c, Answers())
    {
      ghost var w := State();
      if !file.isOpen {
        return FILE_NOT_OPEN;
      }
      if |chain.data| <= file.ptr {
        err := chain.Extend(file.ptr);
        if err != NO_ERROR {
          return;
        }
      }
      assert chain.Contents() == if |w.contents| <= w.ptr then w.contents + chain.spare else w.contents;
      err := chain.LoadSectorUnderPtr(file.ptr);
      if err != NO_ERROR {
        return;
      }
      StoreUnderPtr(c);
    }

    /** The write of `safe_put_char` once the sector under the pointer is loaded. */
    method StoreUnderPtr(c: char)
      requires Valid() && file.isOpen && file.ptr < |chain.data| && chain.loaded == file.ptr / SECTOR
      modifies file`length, file`ptr, chain`mod, chain.buf, this`metadataModified
      ensures Valid()
      ensures State() == WriterState(true, old(chain.Contents())[old(file.ptr) := ByteOf(c)],
        if old(file.length) == old(file.ptr) then old(file.length) + 1 else old(file.length),
        old(file.ptr) + 1, old(metadataModified) || old(file.length) == old(file.ptr))
    {
      chain.WriteByte(file.ptr, ByteOf(c));
      if file.length == file.ptr {
        file.length := file.length + 1;
        metadataModified := true;
      }
      file.ptr := file.ptr + 1;
    }

    /** `put_char`: `safe_put_char` with its error dropped. */
    method PutChar(c: char)
      requires Valid()
      modifies file`length, file`ptr, chain, chain.buf, this`metadataModified
      ensures Valid() && State() == PutOf(old(State()), c, Answers()).w
    {
      var _ := SafePutChar(c);
    }

    /** `safe_puts`: see `PutsOf`. */
    method SafePuts(s: seq<char>) returns (err: ErrorCode)
      requires Valid()
      modifies file`length, file`ptr, chain, chain.buf, this`metadataModified
      ensures Valid() && Put(err, State()) == PutsOf(old(State()), s, Answers())
    {
      ghost var w0 := State();
      var i := 0;
      while i < |s| && s[i] != NUL
        invariant 0 <= i <= |s| && Valid()
        invariant PutsOf(w0, s, Answers()) == PutsOf(State(), s[i..], Answers())
      {
        err := PutsChar(s, i, w0);
        if err != NO_ERROR {
          return;
        }
        i := i + 1;
      }
      return NO_ERROR;
    }

    /** One character of the `safe_puts` loop. */
    method PutsChar(s: seq<char>, i: nat, ghost w0: WriterState) returns (err: ErrorCode)
      requires Valid() && i < |s| && s[i] != NUL
      requires PutsOf(w0, s, Answers()) == PutsOf(State(), s[i..], Answers())
      modifies file`length, file`ptr, chain, chain.buf, this`metadataModified
      ensures Valid() && Answers() == old(Answers())
      ensures err == NO_ERROR ==> PutsOf(w0, s, Answers()) == PutsOf(State(), s[i + 1..], Answers())
      ensures err != NO_ERROR ==> Put(err, State()) == PutsOf(w0, s, Answers())
    {
      err := SafePutChar(s[i]);
      assert s[i..][1..] == s[i + 1..];
    }

    /** `puts`: `safe_puts` with its error dropped. */
    method Puts(s: seq<char>)
      requires Valid()
      modifies file`length, file`ptr, chain, chain.buf, this`metadataModified
      ensures Valid() && State() == PutsOf(old(State()), s, Answers()).w
    {
      var _ := SafePuts(s);
    }

    /**
     * `trim` as it should be: unless the length already is the pointer,
     * `trim_chain` runs and, when it succeeds, the pointer becomes the
     * file's length and the length is flagged for the directory entry.
     */
    method Trim() returns (err: ErrorCode)
      requires Valid()
      modifies file`length, this`metadataModified
      ensures Valid()
      ensures old(file.length) == file.ptr ==> err == NO_ERROR && unchanged(file, this)
      ensures old(file.length) != file.ptr ==> err == trimResult
      ensures old(file.length) != file.ptr && err != NO_ERROR ==> unchanged(file, this)
      ensures old(file.length) != file.ptr && err == NO_ERROR ==>
        file.length == TrimmedLength(file.ptr) && metadataModified
    {
      if file.length != file.ptr {
        if trimResult != NO_ERROR {
          return trimResult;
        }
        file.length := TrimmedLength(file.ptr);
        metadataModified := true;
      }
      return NO_ERROR;
    }

    /** `trim` as written: the length becomes one less than the pointer (see `TrimmedLengthAsWritten`). */
    method TrimAsWritten() returns (err: ErrorCode)
      requires Valid()
      modifies file`length, this`metadataModified
      ensures Valid()
      ensures old(file.length) == file.ptr - 1 ==> err == NO_ERROR && unchanged(file, this)
      ensures old(file.length) != file.ptr - 1 ==> err == trimResult
      ensures old(file.length) != file.ptr - 1 && err != NO_ERROR ==> unchanged(file, this)
      ensures old(file.length) != file.ptr - 1 && err == NO_ERROR ==>
        file.length == TrimmedLengthAsWritten(file.ptr) && metadataModified
    {
      if file.length != file.ptr - 1 {
        if trimResult != NO_ERROR {
          return trimResult;
        }
        file.length := TrimmedLengthAsWritten(file.ptr);
        metadataModified := true;
      }
      return NO_ERROR;
    }

    /** Writing the modified content buffer back fails. */
    predicate ContentFlushFails()
      reads chain
    {
      chain.mod && chain.flushFault != NO_ERROR
    }

    /**
     * `flush`: a modified content buffer goes back to the chain, and the
     * device's error is returned before anything else when that fails;
     * otherwise a flagged length is written, as an unsigned 32-bit value,
     * into the entry's size field and the directory sector is flushed; the
     * flag is cleared only when that flush succeeds.
     */
    method Flush() returns (err: ErrorCode)
      requires Valid()
      modifies chain, dir, this`metadataModified
      ensures Valid() && chain.Contents() == old(chain.Contents())
      ensures old(ContentFlushFails()) ==>
        err == chain.flushFault && chain.mod && chain.data == old(chain.data) &&
        dir[..] == old(dir[..]) && metadataModified == old(metadataModified)
      ensures !old(ContentFlushFails()) ==> !chain.mod && chain.data == old(chain.Contents())
      ensures !old(ContentFlushFails()) && old(metadataModified) ==>
        dir[..] == Sd.LongWritten(old(dir[..]), entryOffset + FILE_LEN_OFFSET, file.length % TWO_32) &&
        err == dirFlushResult && metadataModified == (err != NO_ERROR)
      ensures !old(ContentFlushFails()) && !old(metadataModified) ==>
        err == NO_ERROR && dir[..] == old(dir[..]) && !metadataModified
    {
      err := chain.FlushBuffer();
      if err != NO_ERROR {
        return;
      }
      if metadataModified {
        Sd.WriteLong(entryOffset + FILE_LEN_OFFSET, dir, file.length % TWO_32);
        if dirFlushResult != NO_ERROR {
          return dirFlushResult;
        }
        metadataModified := false;
      }
      return NO_ERROR;
    }

    /** `close`: `flush`, then the file is closed when flushing succeeded. */
    method Close() returns (err: ErrorCode)
      requires Valid()
      modifies chain, dir, this`metadataModified, file`isOpen
      ensures Valid() && chain.Contents() == old(chain.Contents())
      ensures err == if old(ContentFlushFails()) then chain.flushFault
                     else if old(metadataModified) then dirFlushResult else NO_ERROR
      ensures old(ContentFlushFails()) ==>
        chain.mod && chain.data == old(chain.data) && dir[..] == old(dir[..]) && metadataModified == old(metadataModified)
      ensures !old(ContentFlushFails()) ==>
        !chain.mod && chain.data == old(chain.Contents()) && metadataModified == (err != NO_ERROR)
      ensures !old(ContentFlushFails()) && old(metadataModified) ==>
        dir[..] == Sd.LongWritten(old(dir[..]), entryOffset + FILE_LEN_OFFSET, file.length % TWO_32)
      ensures file.isOpen == (old(file.isOpen) && err != NO_ERROR)
    {
      err := Flush();
      err := file.Close(err);
    }

    /**
     * `remove`: a file not yet opened is first found and opened (a search
     * that ran to the directory's end answers `FILENAME_NOT_FOUND`); the
     * directory sector is loaded, and its error answered; the entry's first
     * byte becomes the deleted mark, `clear_chain` runs, and on success the
     * length flag is cleared.
     */
    method Remove() returns (err: ErrorCode)
      requires Valid()
      modifies file`length, file`ptr, dir, this`located, this`metadataModified
      ensures Valid()
      ensures !old(located) && findResult != NO_ERROR ==>
        err == (if findResult == FatFs.EOC_END then FILENAME_NOT_FOUND else findResult) && unchanged(file, dir, this)
      ensures !old(located) && findResult == NO_ERROR && openResult != NO_ERROR ==>
        err == openResult && unchanged(file, dir, this)
      ensures (old(located) || (findResult == NO_ERROR && openResult == NO_ERROR)) && dirLoadResult != NO_ERROR ==>
        located && err == dirLoadResult && dir[..] == old(dir[..]) && metadataModified == old(metadataModified)
      ensures (old(located) || (findResult == NO_ERROR && openResult == NO_ERROR)) && dirLoadResult == NO_ERROR ==>
        located && dir[..] == old(dir[..])[entryOffset := DELETED_FILE_MARK] && err == clearResult &&
        metadataModified == (old(metadataModified) && err != NO_ERROR)
    {
      if !located {
        if findResult != NO_ERROR {
          if findResult == FatFs.EOC_END {
            return FILENAME_NOT_FOUND;
          }
          return findResult;
        }
        err := OpenExistingFile();
        if err != NO_ERROR {
          return;
        }
      }
      if dirLoadResult != NO_ERROR {
        return dirLoadResult;
      }
      dir[entryOffset] := DELETED_FILE_MARK;
      if clearResult != NO_ERROR {
        return clearResult;
      }
      metadataModified := false;
      return NO_ERROR;
    }

    /**
     * `open_existing_file` (of `FatFile`), as far as this model sees it: it
     * answers `openResult`; on success the entry is located and the file
     * takes the length its entry records, with the pointer at 0.
     */
    method OpenExistingFile() returns (err: ErrorCode)
      requires Valid()
      modifies file`length, file`ptr, this`located
      ensures Valid() && err == openResult
      ensures err != NO_ERROR ==> unchanged(file, this)
      ensures err == NO_ERROR ==>
        located && file.length == Sd.GetLong(dir[..], entryOffset + FILE_LEN_OFFSET) && file.ptr == 0
    {
      if openResult != NO_ERROR {
        return openResult;
      }
      located := true;
      file.length, file.ptr := Sd.GetLong(dir[..], entryOffset + FILE_LEN_OFFSET), 0;
      return NO_ERROR;
    }

    /**
     * `create_new_file`: the name, the archive attribute, the first cluster
     * and a size of 0 written into the entry. Writing the name cannot fail.
     */
    method CreateNewFile() returns (err: ErrorCode)
      requires Valid()
      modifies dir
      ensures err == NO_ERROR && dir[..] == EntryCreated(old(dir[..]), entryOffset, name, allocUnit, fsType)
    {
      err := WriteFilename();
      dir[entryOffset + FILE_ATTRIBUTE_OFFSET] := ARCHIVE;
      GetFatLocation();
      Sd.WriteLong(entryOffset + FILE_LEN_OFFSET, dir, 0);
    }

    /** `get_fat_location`: the allocated cluster's low word, and on FAT32 its high word. */
    method GetFatLocation()
      requires Valid()
      modifies dir
      ensures dir[..] == Located(old(dir[..]), entryOffset, allocUnit, fsType)
    {
      Sd.WriteShort(entryOffset + FILE_START_CLSTR_LOW, dir, allocUnit % TWO_16);
      if fsType == FatFs.FAT_32 {
        Sd.WriteShort(entryOffset + FILE_START_CLSTR_HIGH, dir, allocUnit / TWO_16);
      }
    }

    /** `write_filename`: the base, then the extension or the padding. */
    method WriteFilename() returns (err: ErrorCode)
      requires Valid()
      modifies dir
      ensures err == NO_ERROR && dir[..] == Written(old(dir[..]), entryOffset, NameBytes(name))
    {
      var i := WriteBase();
      if At(name, i) != NUL {
        err := WriteFilenameExtension(i, old(dir[..]));
      } else {
        var j := PadWithSpaces(i, FILE_NAME_LEN + FILE_EXTENSION_LEN);
        WrittenAppend(old(dir[..]), entryOffset, Bytes(name[..i]), Spaces(FILE_NAME_LEN + FILE_EXTENSION_LEN - i));
        err := NO_ERROR;
      }
    }

    /** The first loop of `write_filename`: the base of the name, up to its '.' or its end. */
    method WriteBase() returns (i: nat)
      requires dir.Length == SECTOR && entryOffset + BaseLength(name) <= SECTOR
      modifies dir
      ensures i == BaseLength(name) && dir[..] == Written(old(dir[..]), entryOffset, Bytes(name[..i]))
    {
      i := 0;
      ghost var d := dir[..];
      while NotPeriodOrEnd(At(name, i))
        invariant i <= BaseLength(name)
        invariant dir[..] == Written(d, entryOffset, Bytes(name[..i]))
        decreases BaseLength(name) - i
      {
        PutByte(d, entryOffset, Bytes(name[..i]), i, ByteOf(name[i]));
        BytesSnoc(name, i);
        i := i + 1;
      }
    }

    /** One byte more of what is being written into `dir`. */
    method PutByte(ghost d: seq<Byte>, at: nat, ghost bytes: seq<Byte>, k: nat, b: Byte)
      requires dir.Length == |d| && k == |bytes| && at + k < |d| && dir[..] == Written(d, at, bytes)
      modifies dir
      ensures dir[..] == Written(d, at, bytes + [b])
    {
      WrittenSnoc(d, at, bytes, b);
      dir[at + k] := b;
    }

    /**
     * `write_filename_extension`, called after the base: the base padded to
     * 8, then, when the base ended on a '.', the extension (all of the rest
     * of the name) padded to 11. The `INVALID_FILENAME` branch is never taken
     * from `write_filename`, whose base ends on a '.' or the NUL.
     */
    method WriteFilenameExtension(i: nat, ghost d: seq<Byte>) returns (err: ErrorCode)
      requires dir.Length == SECTOR && entryOffset + |NameBytes(name)| <= SECTOR
      requires i == BaseLength(name) && HasExtension(name) && |d| == SECTOR
      requires dir[..] == Written(d, entryOffset, Bytes(name[..i]))
      modifies dir
      ensures err == NO_ERROR && dir[..] == Written(d, entryOffset, NameBytes(name))
    {
      var j := PadHead(i, d);
      if '.' == At(name, i) {
        err := WriteDottedExtension(j, d);
      } else {
        assert false;
        return INVALID_FILENAME;
      }
    }

    /** The base padded with spaces to 8: the name's head written. */
    method PadHead(i: nat, ghost d: seq<Byte>) returns (j: nat)
      requires dir.Length == SECTOR && entryOffset + |NameHead(name)| <= SECTOR && |d| == SECTOR
      requires i == BaseLength(name) && dir[..] == Written(d, entryOffset, Bytes(name[..i]))
      modifies dir
      ensures j == |NameHead(name)| && dir[..] == Written(d, entryOffset, NameHead(name))
    {
      j := PadWithSpaces(i, FILE_NAME_LEN);
      HeadPadded(d, entryOffset, name, dir[..]);
    }

    /** The extension after the '.', padded to 11, once the head is written. */
    method WriteDottedExtension(j0: nat, ghost d: seq<Byte>) returns (err: ErrorCode)
      requires dir.Length == SECTOR && entryOffset + |NameBytes(name)| <= SECTOR && |d| == SECTOR
      requires HasExtension(name) && j0 == |NameHead(name)| && dir[..] == Written(d, entryOffset, NameHead(name))
      modifies dir
      ensures err == NO_ERROR && dir[..] == Written(d, entryOffset, NameBytes(name))
    {
      var j := WriteExtension(j0, d);
      j := PadWithSpaces(j, FILE_NAME_LEN + FILE_EXTENSION_LEN);
      TailPadded(d, entryOffset, name, dir[..]);
      return NO_ERROR;
    }

    /** The extension loop of `write_filename_extension`: the rest of the name after its '.', up to the NUL. */
    method WriteExtension(j0: nat, ghost d: seq<Byte>) returns (j: nat)
      requires dir.Length == SECTOR && |d| == SECTOR && HasExtension(name)
      requires entryOffset + |NameHead(name)| + |Extension(name)| <= SECTOR
      requires j0 == |NameHead(name)| && dir[..] == Written(d, entryOffset, NameHead(name))
      modifies dir
      ensures j == |NameHead(name)| + |Extension(name)|
      ensures dir[..] == Written(d, entryOffset, NameHead(name) + Bytes(Extension(name)))
    {
      j := CopyExtension(j0, dir[..]);
      WrittenAppend(d, entryOffset, NameHead(name), Bytes(Extension(name)));
    }

    /** The extension copied to `j0` on. */
    method CopyExtension(j0: nat, ghost d1: seq<Byte>) returns (j: nat)
      requires dir.Length == |d1| && HasExtension(name) && entryOffset + j0 + |Extension(name)| <= |d1|
      requires dir[..] == d1
      modifies dir
      ensures j == j0 + |Extension(name)|
      ensures dir[..] == Written(d1, entryOffset + j0, Bytes(Extension(name)))
    {
      ghost var e, n := ExtensionStart(name), StrLen(name);
      var k := ExtensionStart(name);
      j := j0;
      assert dir[..] == Written(d1, entryOffset + j0, Bytes(name[e..k]));
      while At(name, k) != NUL
        invariant e <= k <= n && j == j0 + k - e
        invariant dir[..] == Written(d1, entryOffset + j0, Bytes(name[e..k]))
        decreases n - k
      {
        NulAt(name, k);
        ExtensionByte(d1, e, k, j0, j);
        k := k + 1;
        j := j + 1;
      }
      NulAt(name, k);
    }

    /** One character of the extension loop. */
    method ExtensionByte(ghost d1: seq<Byte>, ghost e: nat, k: nat, j0: nat, j: nat)
      requires dir.Length == |d1| && e <= k <= StrLen(name) && At(name, k) != NUL && j == j0 + k - e
      requires entryOffset + j0 + StrLen(name) - e <= |d1|
      requires dir[..] == Written(d1, entryOffset + j0, Bytes(name[e..k]))
      modifies dir
      ensures dir[..] == Written(d1, entryOffset + j0, Bytes(name[e..k + 1]))
    {
      NulAt(name, k);
      PutByte(d1, entryOffset + j0, Bytes(name[e..k]), j - j0, ByteOf(name[k]));
      ExtensionSnoc(name, e, k);
    }

    /**
     * `pad_with_spaces`, and the padding loops of
     * `write_filename_extension`: spaces from `from` up to `to`.
     */
    method PadWithSpaces(from: nat, to: nat) returns (j: nat)
      requires dir.Length == SECTOR && entryOffset + Max(from, to) <= SECTOR
      modifies dir
      ensures j == Max(from, to)
      ensures dir[..] == Written(old(dir[..]), entryOffset + from, Spaces(to - from))
    {
      ghost var d := dir[..];
      j := from;
      while j < to
        invariant from <= j <= Max(from, to)
        invariant dir[..] == Written(d, entryOffset + from, Spaces(j - from))
      {
        var done := j - from;
        var next := done + 1;
        PutByte(d, entryOffset + from, Spaces(done), done, 32);
        SpacesSnoc(done, next);
        j := j + 1;
      }
    }
  }
}
