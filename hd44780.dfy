/**
 * PropWare's `HD44780` character-LCD driver: the cursor state machine that
 * `put_char` drives, the DDRAM address that `move` sends, the memory map of
 * each supported display size, and the control-sequence parser for
 * "ESC [ row ; col H" (cursor position, section 8.3.21 of ECMA-48) and the
 * final bytes 'h' and 'l' (cursor shown / hidden).
 *
 * The bus protocol (`write`, `clock_pulse`, the pins and the `waitcnt`
 * delays) is abstracted into a trace of events: every `cmd(b)` appends
 * `Command(b)` and every character written appends `Data(b)`.
 *
 * The behaviour is given first as pure step functions on `LcdState`; the
 * class `Hd44780` is the driver working in place on its fields and its
 * 32-character escape buffer, each method proved to reach the state its step
 * function describes.
 */
module Lcd {
  import opened Base
  import Printer

  const INVALID_CTRL_SGNL: ErrorCode := 48
  const INVALID_DIMENSIONS: ErrorCode := 49

  const ESCAPE_SEQUENCE_BUFFER_LENGTH: nat := 32
  const TAB_WIDTH: nat := 4

  const CLEAR: Byte := 0x01
  const DISPLAY_CTRL: Byte := 0x08
  const DISPLAY_PWR: Byte := 0x04
  const BLINK: Byte := 0x01
  const SET_DDRAM_ADDR: Byte := 0x80

  /** `show_cursor` sends DISPLAY_CTRL | DISPLAY_PWR | BLINK. */
  const SHOW_CURSOR: Byte := 0x0D
  /** `hide_cursor` sends DISPLAY_CTRL | DISPLAY_PWR. */
  const HIDE_CURSOR: Byte := 0x0C

  datatype Dimensions =
    | Dim8x1 | Dim8x2 | Dim8x4
    | Dim16x1Type1 | Dim16x1Type2 | Dim16x2 | Dim16x4
    | Dim20x1 | Dim20x2 | Dim20x4
    | Dim24x1 | Dim24x2
    | Dim40x1 | Dim40x2

  /** Visible rows and columns, contiguous DDRAM bytes per visible row, and the end of each DDRAM line. */
  datatype MemMap = MemMap(charRows: Byte, charColumns: Byte, ddramCharRowBreak: Byte, ddramLineEnd: Byte)

  /** One transfer on the LCD bus: an instruction or a character. */
  datatype Event = Command(b: Byte) | Data(b: Byte)

  /** `m_curPos`: two `uint8_t` coordinates. */
  datatype Cursor = Cursor(row: Byte, col: Byte)

  /**
   * The driver state: cursor, the bus trace so far, whether a control
   * sequence is being collected, and the 32 characters of the escape buffer.
   */
  datatype LcdState = LcdState(cur: Cursor, bus: seq<Event>, inEscape: bool, esc: seq<char>)

  /** `generate_mem_map`. */
  function MemMapOf(d: Dimensions): (m: MemMap)
    ensures m.charRows == 1 || m.charRows == 2 || m.charRows == 4
    ensures 8 <= m.ddramCharRowBreak <= m.charColumns <= 40
    ensures m.charRows == 4 ==> m.charColumns <= 20 && m.ddramCharRowBreak == m.charColumns && m.ddramLineEnd == 2 * m.charColumns
    ensures m.charRows != 4 ==> m.ddramLineEnd == m.ddramCharRowBreak
    ensures m.charColumns > m.ddramCharRowBreak <==> d == Dim16x1Type1
    ensures d == Dim16x1Type1 ==> m.charColumns == 2 * m.ddramCharRowBreak
  {
    match d
    case Dim8x1 => MemMap(1, 8, 8, 8)
    case Dim8x2 => MemMap(2, 8, 8, 8)
    case Dim8x4 => MemMap(4, 8, 8, 16)
    case Dim16x1Type1 => MemMap(1, 16, 8, 8)
    case Dim16x1Type2 => MemMap(1, 16, 16, 16)
    case Dim16x2 => MemMap(2, 16, 16, 16)
    case Dim16x4 => MemMap(4, 16, 16, 32)
    case Dim20x1 => MemMap(1, 20, 20, 20)
    case Dim20x2 => MemMap(2, 20, 20, 20)
    case Dim20x4 => MemMap(4, 20, 20, 40)
    case Dim24x1 => MemMap(1, 24, 24, 24)
    case Dim24x2 => MemMap(2, 24, 24, 24)
    case Dim40x1 => MemMap(1, 40, 40, 40)
    case Dim40x2 => MemMap(2, 40, 40, 40)
  }

  /** The cell lies on the visible grid. */
  predicate InGrid(d: Dimensions, p: Cursor)
  {
    p.row < MemMapOf(d).charRows && p.col < MemMapOf(d).charColumns
  }

  // ---------------------------------------------------------------- addresses

  /** Bitwise OR of two bytes. */
  function Or8(a: Byte, b: Byte): Byte
  {
    ((a as bv8) | (b as bv8)) as int
  }

  /** OR-ing a single high bit onto a byte below it adds the bit. */
  lemma OrDisjoint(hi: Byte, lo: Byte)
    requires hi == 0 || hi == 0x40 || hi == 0x80
    requires lo < 0x40 || (hi == 0x80 && lo < 0x80)
    ensures Or8(hi, lo) == hi + lo
  {
    if hi == 0 {
      OrZero(lo);
    } else if hi == 0x40 {
      OrBit6(lo);
    } else {
      OrBit7(lo);
    }
  }

  lemma OrZero(lo: Byte)
    ensures Or8(0, lo) == lo
  {
    assert (0 as bv8) | (lo as bv8) == lo as bv8;
  }

  lemma OrBit6(lo: Byte)
    requires lo < 0x40
    ensures Or8(0x40, lo) == 0x40 + lo
  {
    var l := (lo as bv6) as bv8;
    assert lo as bv8 == l;
    assert 0x40 | l == 0x40 + l;
  }

  lemma OrBit7(lo: Byte)
    requires lo < 0x80
    ensures Or8(0x80, lo) == 0x80 + lo
  {
    var l := (lo as bv7) as bv8;
    assert lo as bv8 == l;
    assert 0x80 | l == 0x80 + l;
  }

  /**
   * The address computation of `move`, with the test that selects the
   * "single row split across two DDRAM lines" layout passed in as `split`.
   */
  function AddressWith(m: MemMap, split: bool, row: Byte, col: Byte): Byte
    requires 0 < m.ddramCharRowBreak && 0 < m.ddramLineEnd
  {
    if split then
      Or8(if col / m.ddramLineEnd != 0 then 0x40 else 0, col % m.ddramLineEnd)
    else if m.charRows == 4 then
      ((if row % 2 != 0 then 0x40 else 0) + (if row / 2 != 0 then m.ddramCharRowBreak else 0)
        + col % m.ddramCharRowBreak) % TWO_8
    else
      Or8(if row != 0 then 0x40 else 0, col)
  }

  /**
   * `move` as written selects the split layout when the row break lies beyond
   * the line end, which no entry of `generate_mem_map` satisfies.
   */
  function AddressAsWritten(d: Dimensions, row: Byte, col: Byte): Byte
  {
    var m := MemMapOf(d);
    AddressWith(m, m.ddramCharRowBreak > m.ddramLineEnd, row, col)
  }

  /** The split layout is the one whose visible row is longer than its contiguous DDRAM run (16x1 type 1). */
  predicate SplitRow(m: MemMap)
  {
    m.charColumns > m.ddramCharRowBreak
  }

  /** The DDRAM address of a cell, with the split layout selected for the display that has it. */
  function Address(d: Dimensions, row: Byte, col: Byte): Byte
  {
    var m := MemMapOf(d);
    AddressWith(m, SplitRow(m), row, col)
  }

  /** The two DDRAM lines of the controller in two-line mode: 0x00..0x27 and 0x40..0x67. */
  predicate InDdram(a: Byte)
  {
    a < 0x28 || 0x40 <= a < 0x68
  }

  /** The address of an on-grid cell, in plain arithmetic. */
  lemma AddressOnGrid(d: Dimensions, row: Byte, col: Byte)
    requires InGrid(d, Cursor(row, col))
    ensures var m := MemMapOf(d);
      Address(d, row, col) ==
        if SplitRow(m) then (if col < m.ddramLineEnd then col else 0x40 + col - m.ddramLineEnd)
        else if m.charRows == 4 then (if row % 2 != 0 then 0x40 else 0) + (if row >= 2 then m.ddramCharRowBreak else 0) + col
        else (if row != 0 then 0x40 else 0) + col
  {
    var m := MemMapOf(d);
    if SplitRow(m) {
      AddressSplit(col);
    } else if m.charRows == 4 {
      AddressFourRows(m, row, col);
    } else {
      OrDisjoint(if row != 0 then 0x40 else 0, col);
    }
  }

  lemma AddressSplit(col: Byte)
    requires col < 16
    ensures AddressWith(MemMap(1, 16, 8, 8), true, 0, col) == if col < 8 then col else 0x40 + col - 8
  {
    OrDisjoint(if col / 8 != 0 then 0x40 else 0, col % 8);
  }

  lemma AddressFourRows(m: MemMap, row: Byte, col: Byte)
    requires m.charRows == 4 && row < 4 && col < m.charColumns <= 20 && m.ddramCharRowBreak == m.charColumns
    requires 0 < m.ddramLineEnd
    ensures AddressWith(m, false, row, col) ==
      (if row % 2 != 0 then 0x40 else 0) + (if row >= 2 then m.ddramCharRowBreak else 0) + col
  {
    assert col % m.ddramCharRowBreak == col;
    assert (row / 2 != 0) == (row >= 2);
  }

  /** Every visible cell has an address inside DDRAM, below the SET_DDRAM_ADDR bit. */
  lemma AddressInDdram(d: Dimensions, row: Byte, col: Byte)
    requires InGrid(d, Cursor(row, col))
    ensures InDdram(Address(d, row, col))
    ensures Or8(Address(d, row, col), SET_DDRAM_ADDR) == Address(d, row, col) + 0x80
  {
    AddressOnGrid(d, row, col);
    OrDisjoint(SET_DDRAM_ADDR, Address(d, row, col));
  }

  /** Distinct visible cells have distinct addresses: no cell overwrites another. */
  lemma AddressInjective(d: Dimensions, p: Cursor, q: Cursor)
    requires InGrid(d, p) && InGrid(d, q)
    requires Address(d, p.row, p.col) == Address(d, q.row, q.col)
    ensures p == q
  {
    AddressOnGrid(d, p.row, p.col);
    AddressOnGrid(d, q.row, q.col);
  }

  /** As written, the 16x1 type 1 display addresses its ninth column at 0x08, off its visible DDRAM. */
  lemma SplitRowAsWritten()
    ensures forall d: Dimensions :: !(MemMapOf(d).ddramCharRowBreak > MemMapOf(d).ddramLineEnd)
    ensures AddressAsWritten(Dim16x1Type1, 0, 8) == 0x08
  {
    OrDisjoint(0, 8);
  }

  /** Corrected, the 16x1 type 1 display's columns 8..15 are the first bytes of the second DDRAM line. */
  lemma SplitRowAddresses(col: Byte)
    requires col < 16
    ensures Address(Dim16x1Type1, 0, col) == if col < 8 then col else 0x40 + (col - 8)
  {
    AddressOnGrid(Dim16x1Type1, 0, col);
  }

  // ---------------------------------------------------------------- cursor steps

  /** `move(row, col)`: the address command, then the new position. */
  function MoveTo(d: Dimensions, s: LcdState, row: Byte, col: Byte): (r: LcdState)
    ensures r.inEscape == s.inEscape && r.esc == s.esc
  {
    s.(cur := Cursor(row, col), bus := s.bus + [Command(Or8(Address(d, row, col), SET_DDRAM_ADDR))])
  }

  /** Where `newline` puts the cursor: next row (an 8-bit increment), row 0 after the last, column 0. */
  function NewlinePos(d: Dimensions, p: Cursor): Cursor
  {
    var row := (p.row + 1) % TWO_8;
    Cursor(if row == MemMapOf(d).charRows then 0 else row, 0)
  }

  /** `newline`. */
  function NewlineOf(d: Dimensions, s: LcdState): (r: LcdState)
    ensures r.inEscape == s.inEscape && r.esc == s.esc && r.cur == NewlinePos(d, s.cur)
  {
    var p := NewlinePos(d, s.cur);
    MoveTo(d, s, p.row, p.col)
  }

  /** `carriage_return`: column 0 of the same row. */
  function CarriageReturnOf(d: Dimensions, s: LcdState): (r: LcdState)
    ensures r.inEscape == s.inEscape && r.esc == s.esc
    ensures r.cur == Cursor(s.cur.row, 0)
  {
    MoveTo(d, s, s.cur.row, 0)
  }

  /** Where `backspace` as written goes: from column 0 to column `charColumns` of the row before (row `charRows` from row 0). */
  function BackspaceAsWrittenPos(d: Dimensions, p: Cursor): Cursor
  {
    var m := MemMapOf(d);
    if p.col != 0 then Cursor(p.row, p.col - 1)
    else Cursor(if p.row != 0 then p.row - 1 else m.charRows, m.charColumns)
  }

  /** Where `backspace` goes with the last cell of the previous row as its target. */
  function BackspacePos(d: Dimensions, p: Cursor): Cursor
  {
    var m := MemMapOf(d);
    if p.col != 0 then Cursor(p.row, p.col - 1)
    else Cursor(if p.row != 0 then p.row - 1 else m.charRows - 1, m.charColumns - 1)
  }

  /** `backspace`. */
  function BackspaceOf(d: Dimensions, s: LcdState): (r: LcdState)
    ensures r.inEscape == s.inEscape && r.esc == s.esc && r.cur == BackspacePos(d, s.cur)
  {
    var p := BackspacePos(d, s.cur);
    MoveTo(d, s, p.row, p.col)
  }

  /** Where a written character leaves the cursor: one column on (8-bit), and a newline on reaching `charColumns`. */
  function WritePos(d: Dimensions, p: Cursor): (r: Cursor)
    ensures r.col == (p.col + 1) % TWO_8 || r.col == 0
  {
    var typed := Cursor(p.row, (p.col + 1) % TWO_8);
    if MemMapOf(d).charColumns == typed.col then NewlinePos(d, typed) else typed
  }

  /**
   * The `default:` branch of `put_char`: the character goes out as data and
   * the column advances; reaching `charColumns` inserts a newline, and on the
   * split layout the cursor address is sent again.
   */
  function WriteOf(d: Dimensions, s: LcdState, c: char): (r: LcdState)
    ensures r.inEscape == s.inEscape && r.esc == s.esc && r.cur == WritePos(d, s.cur)
    ensures |r.bus| > |s.bus| && r.bus[..|s.bus|] == s.bus && r.bus[|s.bus|] == Data(ByteOf(c))
  {
    var m := MemMapOf(d);
    var typed := s.(cur := Cursor(s.cur.row, (s.cur.col + 1) % TWO_8), bus := s.bus + [Data(ByteOf(c))]);
    var wrapped := if m.charColumns == typed.cur.col then NewlineOf(d, typed) else typed;
    if SplitRow(m) then MoveTo(d, wrapped, wrapped.cur.row, wrapped.cur.col) else wrapped
  }

  /** How far the column is from the next tab stop (4 when it is on one). */
  function TabDistance(col: Byte): nat
  {
    if col % TAB_WIDTH == 0 then TAB_WIDTH else TAB_WIDTH - col % TAB_WIDTH
  }

  /** How many more spaces the loop of `tab` needs (none on a tab stop). */
  function TabGap(col: Byte): nat
  {
    if col % TAB_WIDTH == 0 then 0 else TAB_WIDTH - col % TAB_WIDTH
  }

  /** A written character shrinks the gap to the next tab stop. */
  lemma TabGapShrinks(d: Dimensions, p: Cursor)
    requires p.col % TAB_WIDTH != 0
    ensures TabGap(WritePos(d, p).col) < TabGap(p.col)
  {
    var c := WritePos(d, p).col;
    if c != 0 {
      assert c == p.col + 1;
    }
  }

  /** `tab`: spaces, at least one, until the column is a multiple of 4. */
  function TabOf(d: Dimensions, s: LcdState): (r: LcdState)
    ensures r.inEscape == s.inEscape && r.esc == s.esc
    ensures r.cur.col % TAB_WIDTH == 0
    ensures |r.bus| > |s.bus| && r.bus[..|s.bus|] == s.bus && r.bus[|s.bus|] == Data(ByteOf(' '))
    decreases TabDistance(s.cur.col)
  {
    var t := WriteOf(d, s, ' ');
    if t.cur.col % TAB_WIDTH == 0 then t
    else
      TabCloser(s.cur.col, t.cur.col);
      var u := TabOf(d, t);
      assert u.bus[..|s.bus|] == u.bus[..|t.bus|][..|s.bus|];
      u
  }

  /** A written character that leaves the cursor off a tab stop moved it one column closer to the next one. */
  lemma TabCloser(col: Byte, next: Byte)
    requires next == (col + 1) % TWO_8 || next == 0
    requires next % TAB_WIDTH != 0
    ensures next == col + 1 && TabDistance(next) < TabDistance(col)
  {
  }

  // ---------------------------------------------------------------- escape sequences

  /** The escape buffer holds 32 characters, and while a sequence is open a NUL ends its text inside them. */
  predicate Good(s: LcdState)
  {
    |s.esc| == ESCAPE_SEQUENCE_BUFFER_LENGTH && (s.inEscape ==> StrLen(s.esc) < ESCAPE_SEQUENCE_BUFFER_LENGTH)
  }

  /** `strlen` of a string whose first NUL is at index `k`. */
  lemma StrLenIs(s: seq<char>, k: nat)
    requires k < |s| && s[k] == NUL
    requires forall i :: 0 <= i < k ==> s[i] != NUL
    ensures StrLen(s) == k
  {
  }

  /** A NUL at index `k` bounds `strlen` by `k`. */
  lemma StrLenAtMost(s: seq<char>, k: nat)
    requires k < |s| && s[k] == NUL
    ensures StrLen(s) <= k
  {
  }

  /** A non-NUL character before the end of the string extends the NUL-free prefix. */
  lemma StrLenPast(s: seq<char>, i: nat)
    requires i <= StrLen(s) && i < |s| && s[i] != NUL
    ensures i + 1 <= StrLen(s)
  {
  }

  /** Storing `c` and a NUL at `len` leaves the text before `len` followed by `c`. */
  lemma StoredPrefix(esc: seq<char>, len: nat, c: char)
    requires len + 1 < |esc|
    ensures esc[len := c][len + 1 := NUL][..len + 1] == esc[..len] + [c]
  {
  }

  /** The text collected so far (up to the terminating NUL). */
  function EscapeText(s: LcdState): seq<char>
  {
    s.esc[..StrLen(s.esc)]
  }

  /** `start_escape_sequence`: the buffer restarts as "ESC". */
  function StartEscapeOf(s: LcdState): (r: LcdState)
    requires |s.esc| == ESCAPE_SEQUENCE_BUFFER_LENGTH
    ensures Good(r) && r.inEscape && EscapeText(r) == [ESCAPE]
  {
    var r := s.(inEscape := true, esc := s.esc[0 := ESCAPE][1 := NUL]);
    assert StrLen(r.esc) == 1;
    r
  }

  /** `final_escape_sequence_character`: the final bytes of ECMA-48 section 5.4, '@' to '~'. */
  predicate IsFinal(c: char)
  {
    '@' <= c <= '~'
  }

  /** The index of the first ';' at or after `i`, or the buffer's length when there is none. */
  function SemicolonFrom(esc: seq<char>, i: nat): (r: nat)
    ensures i <= |esc| ==> i <= r <= |esc|
    ensures r < |esc| ==> esc[r] == ';'
    ensures forall j :: i <= j < r && j < |esc| ==> esc[j] != ';'
    decreases |esc| - i
  {
    if i >= |esc| then |esc| else if esc[i] == ';' then i else SemicolonFrom(esc, i + 1)
  }

  /**
   * `atoi` of the digits at `i`. Only the value modulo 256 is ever used (after
   * `- 1` it is cast to `uint8_t`), so the 16-bit accumulation of the format
   * parser gives the same cursor coordinates.
   */
  function Atoi(esc: seq<char>, i: nat): nat
  {
    Printer.ParseNum(esc, i, 0).0
  }

  /**
   * `move_via_command_sequence`: the row is the number after "ESC [", the
   * column the number after the first ';' from index 3, both minus one and
   * cut to 8 bits. The search for ';' stops at the end of the buffer.
   */
  function CupTarget(esc: seq<char>): Cursor
  {
    var row := (Atoi(esc, 2) - 1) % TWO_8;
    var col := (Atoi(esc, SemicolonFrom(esc, 3) + 1) - 1) % TWO_8;
    Cursor(row, col)
  }

  /** `perform_escape_sequence_command(length)`: act on the final byte, then leave sequence mode. */
  function PerformOf(d: Dimensions, s: LcdState, length: nat): (r: LcdState)
    requires 1 <= length <= |s.esc|
    ensures !r.inEscape && r.esc == s.esc
  {
    var command := s.esc[length - 1];
    var t :=
      if command == 'H' then MoveTo(d, s, CupTarget(s.esc).row, CupTarget(s.esc).col)
      else if command == 'h' then s.(bus := s.bus + [Command(SHOW_CURSOR)])
      else if command == 'l' then s.(bus := s.bus + [Command(HIDE_CURSOR)])
      else s;
    t.(inEscape := false)
  }

  /**
   * `handle_escape_sequence_character`: below 31 characters the character is
   * stored (NUL-terminated) and a final byte, anywhere but right after ESC,
   * performs the sequence; a 32nd character abandons it.
   */
  function HandleEscapeOf(d: Dimensions, s: LcdState, c: char): (r: LcdState)
    requires Good(s)
    ensures Good(r)
  {
    var len := StrLen(s.esc);
    if ESCAPE_SEQUENCE_BUFFER_LENGTH - 1 > len then
      var t := s.(esc := s.esc[len := c][len + 1 := NUL]);
      StrLenAtMost(t.esc, len + 1);
      if len != 1 && IsFinal(c) then PerformOf(d, t.(inEscape := false), len + 1) else t
    else
      s.(inEscape := false)
  }

  /** `put_char`. */
  function PutCharOf(d: Dimensions, s: LcdState, c: char): (r: LcdState)
    requires Good(s)
    ensures Good(r)
  {
    if s.inEscape then HandleEscapeOf(d, s, c)
    else if c == ESCAPE then StartEscapeOf(s)
    else if c == NEWLINE then NewlineOf(d, s)
    else if c == TAB then TabOf(d, s)
    else if c == CARRIAGE_RETURN then CarriageReturnOf(d, s)
    else if c == BACKSPACE then BackspaceOf(d, s)
    else if c == BELL then s
    else WriteOf(d, s, c)
  }

  /** `puts` of the characters of `text`, in order. */
  function PutsOf(d: Dimensions, s: LcdState, text: seq<char>): (r: LcdState)
    requires Good(s)
    ensures Good(r)
  {
    if text == [] then s else PutCharOf(d, PutsOf(d, s, text[..|text| - 1]), text[|text| - 1])
  }

  // ---------------------------------------------------------------- properties

  /** A printable character on the grid moves one column right, or wraps to column 0 of the next row. */
  lemma WriteAdvances(d: Dimensions, p: Cursor)
    requires InGrid(d, p)
    ensures var m := MemMapOf(d);
      WritePos(d, p) ==
        if p.col + 1 < m.charColumns then Cursor(p.row, p.col + 1)
        else Cursor(if p.row + 1 == m.charRows then 0 else p.row + 1, 0)
    ensures InGrid(d, WritePos(d, p))
  {
  }

  /** `newline` from a row of the grid moves to the start of the next row, wrapping to the top. */
  lemma NewlineWraps(d: Dimensions, p: Cursor)
    requires p.row < MemMapOf(d).charRows
    ensures var m := MemMapOf(d);
      NewlinePos(d, p) == Cursor(if p.row + 1 == m.charRows then 0 else p.row + 1, 0)
    ensures InGrid(d, NewlinePos(d, p))
  {
  }

  /** As written, backspace in column 0 leaves the grid, and the next character does not wrap. */
  lemma BackspaceLeavesGrid(d: Dimensions, p: Cursor)
    requires InGrid(d, p) && p.col == 0
    ensures !InGrid(d, BackspaceAsWrittenPos(d, p))
    ensures WritePos(d, BackspaceAsWrittenPos(d, p)).col == MemMapOf(d).charColumns + 1
  {
  }

  /** Corrected, backspace steps one cell back in reading order and stays on the grid. */
  lemma BackspaceStepsBack(d: Dimensions, p: Cursor)
    requires InGrid(d, p)
    ensures var m := MemMapOf(d);
      BackspacePos(d, p) ==
        if p.col != 0 then Cursor(p.row, p.col - 1)
        else Cursor(if p.row != 0 then p.row - 1 else m.charRows - 1, m.charColumns - 1)
    ensures InGrid(d, BackspacePos(d, p))
  {
  }

  /** Backspace undoes the move of a printable character. */
  lemma BackspaceUndoesWrite(d: Dimensions, p: Cursor)
    requires InGrid(d, p)
    ensures BackspacePos(d, WritePos(d, p)) == p
  {
    WriteAdvances(d, p);
  }

  /** The buffer writes of one stored character: the text grows by it (a NUL stores nothing). */
  lemma EscapeStored(s: LcdState, c: char)
    requires Good(s) && StrLen(s.esc) < ESCAPE_SEQUENCE_BUFFER_LENGTH - 1
    ensures var len := StrLen(s.esc);
      var t := s.(esc := s.esc[len := c][len + 1 := NUL]);
      EscapeText(t) == EscapeText(s) + (if c == NUL then [] else [c])
  {
    var len := StrLen(s.esc);
    var e := s.esc[len := c][len + 1 := NUL];
    if c == NUL {
      StrLenIs(e, len);
      assert e[..len] == s.esc[..len];
    } else {
      StrLenIs(e, len + 1);
      assert e[..len + 1] == s.esc[..len] + [c];
    }
  }

  /**
   * One character inside a control sequence: it is stored while fewer than
   * 31 are buffered; the sequence ends exactly on a final byte past the
   * second position, or on overflow.
   */
  lemma EscapeStep(d: Dimensions, s: LcdState, c: char)
    requires Good(s) && s.inEscape
    ensures var len := StrLen(s.esc);
      var r := PutCharOf(d, s, c);
      && (r.inEscape <==> len < ESCAPE_SEQUENCE_BUFFER_LENGTH - 1 && !(len != 1 && IsFinal(c)))
      && (len < ESCAPE_SEQUENCE_BUFFER_LENGTH - 1 ==> EscapeText(r) == EscapeText(s) + (if c == NUL then [] else [c]))
      && (r.inEscape || !IsFinal(c) || len == ESCAPE_SEQUENCE_BUFFER_LENGTH - 1 ==> r.cur == s.cur && r.bus == s.bus)
  {
    if StrLen(s.esc) < ESCAPE_SEQUENCE_BUFFER_LENGTH - 1 {
      EscapeStored(s, c);
    }
  }

  /** The control sequence "ESC [ row ; col H" with decimal numbers. */
  function CupSequence(row: nat, col: nat): seq<char>
  {
    [ESCAPE, '['] + Printer.Digits(row, 10) + [';'] + Printer.Digits(col, 10) + ['H']
  }

  /** Numbers below 1000 take at most three decimal digits. */
  lemma ThreeDigits(x: nat)
    requires x < 1000
    ensures |Printer.Digits(x, 10)| <= 3
  {
    Printer.DivMod(x, 10);
    if x >= 10 {
      var q := x / 10;
      assert |Printer.Digits(x, 10)| == |Printer.Digits(q, 10)| + 1;
      Printer.DivMod(q, 10);
      if q >= 10 {
        assert |Printer.Digits(q, 10)| == |Printer.Digits(q / 10, 10)| + 1;
        assert q / 10 < 10;
        assert |Printer.Digits(q / 10, 10)| == 1;
      }
    }
  }

  /** `puts` of one more character is one more `put_char`. */
  lemma PutsSnoc(d: Dimensions, s: LcdState, text: seq<char>, i: nat)
    requires Good(s) && i < |text|
    ensures PutsOf(d, s, text[..i + 1]) == PutCharOf(d, PutsOf(d, s, text[..i]), text[i])
  {
    assert text[..i + 1][..i] == text[..i];
  }

  /** Feeding characters one string after another is feeding their concatenation. */
  lemma {:induction false} PutsAppend(d: Dimensions, s: LcdState, a: seq<char>, b: seq<char>)
    requires Good(s)
    ensures PutsOf(d, s, a + b) == PutsOf(d, PutsOf(d, s, a), b)
    decreases |b|
  {
    if b == [] {
      assert a + b == a;
    } else {
      assert (a + b)[..|a + b| - 1] == a + b[..|b| - 1];
      PutsAppend(d, s, a, b[..|b| - 1]);
    }
  }

  /** Feeding `text` to `s` collects it into the open control sequence and does nothing else. */
  ghost predicate Collected(d: Dimensions, s: LcdState, text: seq<char>)
    requires Good(s)
  {
    var r := PutsOf(d, s, text);
    r.inEscape && r.cur == s.cur && r.bus == s.bus && EscapeText(r) == EscapeText(s) + text
  }

  /** Characters that are neither NUL nor final are collected into an open sequence past ESC '['. */
  lemma {:induction false} EscapeCollects(d: Dimensions, s: LcdState, text: seq<char>)
    requires Good(s) && s.inEscape && 2 <= StrLen(s.esc)
    requires StrLen(s.esc) + |text| < ESCAPE_SEQUENCE_BUFFER_LENGTH - 1
    requires forall i :: 0 <= i < |text| ==> text[i] != NUL && !IsFinal(text[i])
    ensures Collected(d, s, text)
    decreases |text|
  {
    if text == [] {
      assert EscapeText(s) + text == EscapeText(s);
    } else {
      EscapeCollects(d, s, text[..|text| - 1]);
      CollectStep(d, s, text);
    }
  }

  lemma CollectStep(d: Dimensions, s: LcdState, text: seq<char>)
    requires Good(s) && s.inEscape && 2 <= StrLen(s.esc)
    requires StrLen(s.esc) + |text| < ESCAPE_SEQUENCE_BUFFER_LENGTH - 1
    requires text != [] && text[|text| - 1] != NUL && !IsFinal(text[|text| - 1])
    requires Collected(d, s, text[..|text| - 1])
    ensures Collected(d, s, text)
  {
    var front, c := text[..|text| - 1], text[|text| - 1];
    var t := PutsOf(d, s, front);
    assert StrLen(t.esc) == |EscapeText(t)| == StrLen(s.esc) + |front|;
    EscapeStep(d, t, c);
    assert EscapeText(s) + front + [c] == EscapeText(s) + text;
  }

  /** `atoi` at `k` reads back a number written there in decimal and ended by a non-digit. */
  lemma NumberAt(esc: seq<char>, k: nat, w: nat)
    requires w < TWO_16
    requires k + |Printer.Digits(w, 10)| < |esc|
    requires esc[k..k + |Printer.Digits(w, 10)|] == Printer.Digits(w, 10)
    requires !Printer.IsDigit(esc[k + |Printer.Digits(w, 10)|])
    ensures Atoi(esc, k) == w
  {
    var rest := esc[k..];
    assert esc == esc[..k] + rest;
    assert rest[..|Printer.Digits(w, 10)|] == esc[k..k + |Printer.Digits(w, 10)|];
    Printer.NumOfDigits(w, rest);
    Printer.NumFrom(esc[..k], rest, 0, 0);
  }

  /** Where the parts of "ESC [ row ; col H" lie. */
  lemma CupLayout(row: nat, col: nat)
    ensures var dr, dc, cup := Printer.Digits(row, 10), Printer.Digits(col, 10), CupSequence(row, col);
      && |cup| == |dr| + |dc| + 4
      && cup[2..2 + |dr|] == dr && cup[2 + |dr|] == ';'
      && cup[3 + |dr|..3 + |dr| + |dc|] == dc && cup[3 + |dr| + |dc|] == 'H'
  {
    SequenceLayout(Printer.Digits(row, 10), Printer.Digits(col, 10));
  }

  lemma SequenceLayout(dr: seq<char>, dc: seq<char>)
    ensures var cup := [ESCAPE, '['] + dr + [';'] + dc + ['H'];
      && |cup| == |dr| + |dc| + 4
      && cup[2..2 + |dr|] == dr && cup[2 + |dr|] == ';'
      && cup[3 + |dr|..3 + |dr| + |dc|] == dc && cup[3 + |dr| + |dc|] == 'H'
  {
  }

  /** Decimal digits contain no ';'. */
  lemma DigitsNoSemicolon(esc: seq<char>, k: nat, w: nat)
    requires k + |Printer.Digits(w, 10)| <= |esc| && esc[k..k + |Printer.Digits(w, 10)|] == Printer.Digits(w, 10)
    ensures forall j :: k <= j < k + |Printer.Digits(w, 10)| ==> esc[j] != ';'
  {
    forall j | k <= j < k + |Printer.Digits(w, 10)|
      ensures esc[j] != ';'
    {
      assert esc[j] == esc[k..k + |Printer.Digits(w, 10)|][j - k];
      Printer.DigitIsDigit(w, j - k);
    }
  }

  /** The text of a buffer determines the cursor target when ';' lies inside it. */
  lemma CupOfText(esc: seq<char>, row: nat, col: nat)
    requires 1 <= row < 1000 && 1 <= col < 1000
    requires |CupSequence(row, col)| <= |esc| && esc[..|CupSequence(row, col)|] == CupSequence(row, col)
    ensures CupTarget(esc) == Cursor((row - 1) % TWO_8, (col - 1) % TWO_8)
  {
    CupRow(esc, row, col);
    CupColumn(esc, row, col);
  }

  /** The row number of the sequence, and the ';' that follows it. */
  lemma CupRow(esc: seq<char>, row: nat, col: nat)
    requires 1 <= row < 1000 && 1 <= col < 1000
    requires |CupSequence(row, col)| <= |esc| && esc[..|CupSequence(row, col)|] == CupSequence(row, col)
    ensures Atoi(esc, 2) == row && SemicolonFrom(esc, 3) == 2 + |Printer.Digits(row, 10)|
  {
    var dr := Printer.Digits(row, 10);
    var cup := CupSequence(row, col);
    var semi := 2 + |dr|;
    CupLayout(row, col);
    CupParts(esc, cup, 2, dr);
    CupAt(esc, cup, semi);
    NumberAt(esc, 2, row);
    DigitsNoSemicolon(esc, 2, row);
    SemicolonStops(esc, 3, semi);
  }

  /** The column number of the sequence. */
  lemma CupColumn(esc: seq<char>, row: nat, col: nat)
    requires 1 <= row < 1000 && 1 <= col < 1000
    requires |CupSequence(row, col)| <= |esc| && esc[..|CupSequence(row, col)|] == CupSequence(row, col)
    ensures Atoi(esc, 3 + |Printer.Digits(row, 10)|) == col
  {
    var dr, dc := Printer.Digits(row, 10), Printer.Digits(col, 10);
    var cup := CupSequence(row, col);
    var start := 3 + |dr|;
    CupLayout(row, col);
    CupParts(esc, cup, start, dc);
    CupAt(esc, cup, start + |dc|);
    NumberAt(esc, start, col);
  }

  lemma CupAt(esc: seq<char>, cup: seq<char>, k: nat)
    requires |cup| <= |esc| && esc[..|cup|] == cup && k < |cup|
    ensures esc[k] == cup[k]
  {
    assert esc[..|cup|][k] == esc[k];
  }

  /** A slice of the buffer inside the control sequence is that slice of the sequence. */
  lemma CupParts(esc: seq<char>, cup: seq<char>, k: nat, part: seq<char>)
    requires |cup| <= |esc| && esc[..|cup|] == cup
    requires k + |part| <= |cup| && cup[k..k + |part|] == part
    ensures esc[k..k + |part|] == part
  {
    assert esc[..|cup|][k..k + |part|] == esc[k..k + |part|];
  }

  /** `SemicolonFrom` finds a ';' that follows only non-';' characters. */
  lemma {:induction false} SemicolonStops(esc: seq<char>, i: nat, k: nat)
    requires i <= k < |esc| && esc[k] == ';'
    requires forall j :: i <= j < k ==> esc[j] != ';'
    ensures SemicolonFrom(esc, i) == k
    decreases k - i
  {
    if i < k {
      SemicolonStops(esc, i + 1, k);
    }
  }

  /**
   * "ESC [ row ; col H" moves the cursor to (row - 1, col - 1), zero-based
   * (section 8.3.21 of ECMA-48), with one address command and nothing else.
   */
  lemma CursorPosition(d: Dimensions, s: LcdState, row: nat, col: nat)
    requires Good(s) && !s.inEscape
    requires 1 <= row < 1000 && 1 <= col < 1000
    ensures var r := PutsOf(d, s, CupSequence(row, col));
      var target := Cursor((row - 1) % TWO_8, (col - 1) % TWO_8);
      && !r.inEscape && r.cur == target
      && r.bus == s.bus + [Command(Or8(Address(d, target.row, target.col), SET_DDRAM_ADDR))]
  {
    var dr, dc := Printer.Digits(row, 10), Printer.Digits(col, 10);
    ThreeDigits(row);
    ThreeDigits(col);
    var body := dr + [';'] + dc;
    assert CupSequence(row, col) == [ESCAPE, '['] + body + ['H'];
    // ESC and '['
    var s2 := OpenBracket(d, s);
    // the numbers and the ';'
    forall i | 0 <= i < |body|
      ensures body[i] != NUL && !IsFinal(body[i])
    {
      if i < |dr| {
        assert body[i] == dr[i];
        Printer.DigitIsDigit(row, i);
      } else if i > |dr| {
        assert body[i] == dc[i - |dr| - 1];
        Printer.DigitIsDigit(col, i - |dr| - 1);
      }
    }
    EscapeCollects(d, s2, body);
    PutsAppend(d, s, [ESCAPE, '['], body);
    var s3 := PutsOf(d, s, [ESCAPE, '['] + body);
    PutsAppend(d, s, [ESCAPE, '['] + body, ['H']);
    assert PutsOf(d, s3, ['H']) == PutCharOf(d, s3, 'H') by {
      assert ['H'][..0] == [];
    }
    CupFinal(d, s3, row, col);
  }

  /** The final 'H' of a collected "ESC [ row ; col" moves the cursor there. */
  lemma CupFinal(d: Dimensions, s: LcdState, row: nat, col: nat)
    requires Good(s) && s.inEscape
    requires 1 <= row < 1000 && 1 <= col < 1000
    requires EscapeText(s) == [ESCAPE, '['] + Printer.Digits(row, 10) + [';'] + Printer.Digits(col, 10)
    ensures var r := PutCharOf(d, s, 'H');
      var target := Cursor((row - 1) % TWO_8, (col - 1) % TWO_8);
      && !r.inEscape && r.cur == target
      && r.bus == s.bus + [Command(Or8(Address(d, target.row, target.col), SET_DDRAM_ADDR))]
  {
    ThreeDigits(row);
    ThreeDigits(col);
    var len := StrLen(s.esc);
    var e := s.esc[len := 'H'][len + 1 := NUL];
    StoredPrefix(s.esc, len, 'H');
    assert e[..|CupSequence(row, col)|] == CupSequence(row, col);
    CupOfText(e, row, col);
  }

  /** "ESC [ h" and "ESC [ l" show and hide the cursor with one command each. */
  lemma CursorVisibility(d: Dimensions, s: LcdState)
    requires Good(s) && !s.inEscape
    ensures var r := PutsOf(d, s, [ESCAPE, '[', 'h']);
      !r.inEscape && r.cur == s.cur && r.bus == s.bus + [Command(SHOW_CURSOR)]
    ensures var r := PutsOf(d, s, [ESCAPE, '[', 'l']);
      !r.inEscape && r.cur == s.cur && r.bus == s.bus + [Command(HIDE_CURSOR)]
  {
    assert [ESCAPE, '[', 'h'][..2] == [ESCAPE, '['] && [ESCAPE, '[', 'l'][..2] == [ESCAPE, '['];
    var s2 := OpenBracket(d, s);
    StrLenIs(s2.esc, 2);
  }

  /** "ESC [" opens a sequence whose text is those two characters, touching nothing else. */
  lemma OpenBracket(d: Dimensions, s: LcdState) returns (s2: LcdState)
    requires Good(s) && !s.inEscape
    ensures s2 == PutsOf(d, s, [ESCAPE, '['])
    ensures Good(s2) && s2.inEscape && s2.cur == s.cur && s2.bus == s.bus && EscapeText(s2) == [ESCAPE, '[']
  {
    assert [ESCAPE, '['][..1] == [ESCAPE];
    assert [ESCAPE][..0] == [];
    assert PutsOf(d, s, []) == s;
    var s1 := PutsOf(d, s, [ESCAPE]);
    assert s1 == PutCharOf(d, s, ESCAPE);
    assert s1 == StartEscapeOf(s);
    EscapeStep(d, s1, '[');
    s2 := PutsOf(d, s, [ESCAPE, '[']);
    assert s2 == PutCharOf(d, s1, '[');
  }

  // ---------------------------------------------------------------- the driver

  /** The driver object; `bus` records every byte sent to the LCD. */
  class Hd44780 {
    const dimensions: Dimensions
    const memMap: MemMap
    const showCursor: bool
    var row: Byte
    var col: Byte
    var inEscapeSequence: bool
    const escapeSequence: array<char>
    var bus: seq<Event>

    function State(): LcdState
      reads this, escapeSequence
    {
      LcdState(Cursor(row, col), bus, inEscapeSequence, escapeSequence[..])
    }

    ghost predicate Valid()
      reads this, escapeSequence
    {
      memMap == MemMapOf(dimensions) && Good(State())
    }

    /** The constructor: home position, no sequence open, memory map of the dimensions. */
    constructor (dimensions: Dimensions, showCursor: bool)
      ensures Valid() && fresh(escapeSequence)
      ensures this.dimensions == dimensions && this.showCursor == showCursor
      ensures State().cur == Cursor(0, 0) && bus == [] && !inEscapeSequence
    {
      this.dimensions := dimensions;
      this.showCursor := showCursor;
      row, col := 0, 0;
      inEscapeSequence := false;
      escapeSequence := new char[ESCAPE_SEQUENCE_BUFFER_LENGTH];
      bus := [];
      memMap := MemMapOf(dimensions);
    }

    /** `clear`: the CLEAR command, then home. */
    method Clear()
      requires Valid()
      modifies this
      ensures Valid()
      ensures State() == old(State()).(cur := Cursor(0, 0), bus := old(bus) + [Command(CLEAR)])
    {
      bus := bus + [Command(CLEAR)];
      row, col := 0, 0;
    }

    method Move(row: Byte, col: Byte)
      requires Valid()
      modifies this
      ensures Valid() && State() == MoveTo(dimensions, old(State()), row, col)
    {
      var addr := Address(dimensions, row, col);
      bus := bus + [Command(Or8(addr, SET_DDRAM_ADDR))];
      this.row, this.col := row, col;
    }

    method Newline()
      requires Valid()
      modifies this
      ensures Valid() && State() == NewlineOf(dimensions, old(State()))
    {
      row := (row + 1) % TWO_8;
      if row == memMap.charRows {
        row := 0;
      }
      col := 0;
      Move(row, col);
    }

    method CarriageReturn()
      requires Valid()
      modifies this
      ensures Valid() && State() == CarriageReturnOf(dimensions, old(State()))
    {
      Move(row, 0);
    }

    method Backspace()
      requires Valid()
      modifies this
      ensures Valid() && State() == BackspaceOf(dimensions, old(State()))
    {
      var nextRow := row;
      var nextColumn;
      if col != 0 {
        nextColumn := col - 1;
      } else {
        nextColumn := memMap.charColumns - 1;
        if row != 0 {
          nextRow := row - 1;
        } else {
          nextRow := memMap.charRows - 1;
        }
      }
      Move(nextRow, nextColumn);
    }

    /** The `default:` branch of `put_char` (its recursive `put_char('\n')` is `newline`, no sequence being open). */
    method WriteChar(c: char)
      requires Valid()
      modifies this
      ensures Valid() && State() == WriteOf(dimensions, old(State()), c)
    {
      bus := bus + [Data(ByteOf(c))];
      col := (col + 1) % TWO_8;
      if memMap.charColumns == col {
        Newline();
      }
      if SplitRow(memMap) {
        Move(row, col);
      }
    }

    method Tab()
      requires Valid()
      modifies this
      ensures Valid() && State() == TabOf(dimensions, old(State()))
    {
      WriteChar(' ');
      ghost var goal := TabOf(dimensions, old(State()));
      while col % TAB_WIDTH != 0
        invariant Valid()
        invariant goal == if col % TAB_WIDTH == 0 then State() else TabOf(dimensions, State())
        decreases TabGap(col)
      {
        TabGapShrinks(dimensions, State().cur);
        WriteChar(' ');
      }
    }

    method ShowCursor()
      requires Valid()
      modifies this
      ensures Valid() && State() == old(State()).(bus := old(bus) + [Command(SHOW_CURSOR)])
    {
      bus := bus + [Command(SHOW_CURSOR)];
    }

    method HideCursor()
      requires Valid()
      modifies this
      ensures Valid() && State() == old(State()).(bus := old(bus) + [Command(HIDE_CURSOR)])
    {
      bus := bus + [Command(HIDE_CURSOR)];
    }

    method StartEscapeSequence()
      requires Valid()
      modifies this, escapeSequence
      ensures Valid() && State() == StartEscapeOf(old(State()))
    {
      inEscapeSequence := true;
      escapeSequence[0] := ESCAPE;
      escapeSequence[1] := NUL;
    }

    method MoveViaCommandSequence()
      requires Valid()
      modifies this
      ensures Valid() && State() == MoveTo(dimensions, old(State()), CupTarget(old(State()).esc).row, CupTarget(old(State()).esc).col)
    {
      var row := (Atoi(escapeSequence[..], 2) - 1) % TWO_8;
      var index := 3;
      while index < ESCAPE_SEQUENCE_BUFFER_LENGTH && escapeSequence[index] != ';'
        invariant 3 <= index <= ESCAPE_SEQUENCE_BUFFER_LENGTH
        invariant SemicolonFrom(escapeSequence[..], index) == SemicolonFrom(escapeSequence[..], 3)
        decreases ESCAPE_SEQUENCE_BUFFER_LENGTH - index
      {
        index := index + 1;
      }
      index := index + 1;
      var column := (Atoi(escapeSequence[..], index) - 1) % TWO_8;
      Move(row, column);
    }

    method PerformEscapeSequenceCommand(length: nat)
      requires Valid() && 1 <= length <= ESCAPE_SEQUENCE_BUFFER_LENGTH
      modifies this
      ensures Valid() && State() == PerformOf(dimensions, old(State()), length)
    {
      var command := escapeSequence[length - 1];
      if command == 'H' {
        MoveViaCommandSequence();
      } else if command == 'h' {
        ShowCursor();
      } else if command == 'l' {
        HideCursor();
      }
      inEscapeSequence := false;
    }

    method HandleEscapeSequenceCharacter(c: char)
      requires Valid() && inEscapeSequence
      modifies this, escapeSequence
      ensures Valid() && State() == HandleEscapeOf(dimensions, old(State()), c)
    {
      var len := 0;
      while escapeSequence[len] != NUL
        invariant len <= StrLen(escapeSequence[..])
        decreases ESCAPE_SEQUENCE_BUFFER_LENGTH - len
      {
        len := len + 1;
      }
      if ESCAPE_SEQUENCE_BUFFER_LENGTH - 1 > len {
        escapeSequence[len] := c;
        escapeSequence[len + 1] := NUL;
        if len != 1 && IsFinal(c) {
          inEscapeSequence := false;
          PerformEscapeSequenceCommand(len + 1);
        }
      } else {
        inEscapeSequence := false;
      }
    }

    method PutChar(c: char)
      requires Valid()
      modifies this, escapeSequence
      ensures Valid() && State() == PutCharOf(dimensions, old(State()), c)
    {
      if inEscapeSequence {
        HandleEscapeSequenceCharacter(c);
      } else if c == ESCAPE {
        StartEscapeSequence();
      } else if c == NEWLINE {
        Newline();
      } else if c == TAB {
        Tab();
      } else if c == CARRIAGE_RETURN {
        CarriageReturn();
      } else if c == BACKSPACE {
        Backspace();
      } else if c == BELL {
      } else {
        WriteChar(c);
      }
    }

    /** `puts`: every character before the terminating NUL, in order. */
    method Puts(text: seq<char>)
      requires Valid()
      modifies this, escapeSequence
      ensures Valid() && State() == PutsOf(dimensions, old(State()), text[..StrLen(text)])
    {
      var i := 0;
      while i < |text| && text[i] != NUL
        invariant i <= StrLen(text)
        invariant Valid() && State() == PutsOf(dimensions, old(State()), text[..i])
      {
        StrLenPast(text, i);
        PutsSnoc(dimensions, old(State()), text, i);
        PutChar(text[i]);
        i := i + 1;
      }
    }
  }
}
