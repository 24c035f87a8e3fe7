/**
 * PropWare's `VGAText` terminal: a 32 x 15 screen of 16-bit tile words that
 * a video driver on another cog displays. `put_char` interprets the control
 * codes 0 (clear), 1 (home), 8 (backspace), 9 (tab), 10/11/12 (the next
 * character sets the column, the row or the colour) and 13 (newline);
 * every other character is written into the cell under the cursor, and the
 * screen scrolls up when a newline leaves the last row.
 *
 * A C `char` is signed here, so characters are the integers -128..127. The
 * pure step functions on `VgaState` describe each operation; the class
 * `Terminal` works in place on its screen and colour arrays and is proved to
 * reach the state the step functions describe.
 */
module VgaText {
  import opened Base

  const COLUMNS: int := 32
  const ROWS: int := 15
  const SCREEN_SIZE: int := 480
  const LAST_ROW: int := 448

  /** A cleared cell: colour 0, character ' '. */
  const BLANK: int := 0x220

  const TAB_STOP: int := 8

  /** A signed `char`. */
  type SChar = c: int | -128 <= c < 128

  /** A `uint16_t` screen word. */
  type Cell = v: int | 0 <= v < TWO_16

  /** The screen words, cursor row and column, colour and pending control code. */
  datatype VgaState = VgaState(screen: seq<Cell>, row: int, col: int, color: int, flag: int)

  /** The screen is 480 words, the cursor lies on it, the colour is 0..7 and the flag is 0 or a pending 10..12. */
  predicate Good(s: VgaState)
  {
    && |s.screen| == SCREEN_SIZE && 0 <= s.row < ROWS && 0 <= s.col < COLUMNS
    && 0 <= s.color < 8 && (s.flag == 0 || 10 <= s.flag <= 12)
  }

  /** `n` blank cells. */
  function Fill(n: nat): (r: seq<Cell>)
    ensures |r| == n && forall i :: 0 <= i < n ==> r[i] == BLANK
  {
    if n == 0 then [] else Fill(n - 1) + [BLANK]
  }

  /** C's `%` on `int`, which truncates toward zero. */
  function CRem(a: int, n: int): (r: int)
    requires 0 < n
    ensures 0 <= a ==> r == a % n
    ensures -n < r < n
  {
    if a >= 0 then a % n else -((-a) % n)
  }

  /**
   * The word `print` stores: `((color << 1) + (c & 1)) << 10` selects the
   * colour pair (the odd/even half for the character's low bit), 512 the
   * font base, and `c & 0xFE` the character pair, in two's complement.
   */
  function CellValue(color: int, c: int): (v: Cell)
    requires 0 <= color < 8
  {
    (color * 2 + c % 2) * 1024 + 512 + (c % TWO_8 - c % 2)
  }

  /** The colour a screen word shows. */
  function CellColor(v: Cell): int
  {
    v / 2048
  }

  /** The character byte a screen word shows. */
  function CellByte(v: Cell): int
  {
    v % 1024 - 512 + (v / 1024) % 2
  }

  /** A stored word gives back its colour and the character's byte. */
  lemma CellRoundTrip(color: int, c: int)
    requires 0 <= color < 8
    ensures CellColor(CellValue(color, c)) == color
    ensures CellByte(CellValue(color, c)) == c % TWO_8
  {
    LowBit(c);
    CellSplit(CellValue(color, c), color, c % 2, 512 + (c % TWO_8 - c % 2));
  }

  /** Dropping the low bit of a byte leaves an even number in `0..254`. */
  lemma LowBit(c: int)
    ensures 0 <= c % TWO_8 - c % 2 < 256
  {
    var h := (c / TWO_8) * 128;
    assert c == 2 * h + c % TWO_8;
  }

  /** A word splits into the colour above bit 11, the half in bit 10 and its low ten bits. */
  lemma CellSplit(v: int, color: int, b: int, rest: int)
    requires 0 <= color < 8 && 0 <= b < 2 && 0 <= rest < 1024 && v == (color * 2 + b) * 1024 + rest
    ensures v / 2048 == color && v % 1024 == rest && (v / 1024) % 2 == b
  {
    assert v / 1024 == color * 2 + b;
  }

  // ---------------------------------------------------------------- steps

  /** Room for the cursor: the screen and a row on it (the column may have just reached 32). */
  predicate OnScreen(s: VgaState)
  {
    |s.screen| == SCREEN_SIZE && 0 <= s.row < ROWS
  }

  /** The screen moved up one row, with a blank last row. */
  function Scrolled(screen: seq<Cell>): (r: seq<Cell>)
    requires |screen| == SCREEN_SIZE
    ensures |r| == SCREEN_SIZE
  {
    screen[COLUMNS..] + Fill(COLUMNS)
  }

  /** `newline`: column 0 of the next row; leaving the last row scrolls instead. */
  function NewlineOf(s: VgaState): (r: VgaState)
    requires OnScreen(s)
    ensures OnScreen(r) && r.col == 0 && r.color == s.color && r.flag == s.flag
  {
    if s.row + 1 == ROWS then s.(col := 0, row := ROWS - 1, screen := Scrolled(s.screen))
    else s.(col := 0, row := s.row + 1)
  }

  /** `print`: the cell under the cursor gets the character, and the cursor advances, wrapping at column 32. */
  function PrintOf(s: VgaState, c: int): (r: VgaState)
    requires Good(s)
    ensures Good(r) && r.color == s.color && r.flag == s.flag
    ensures r.col == s.col + 1 || r.col == 0
  {
    var t := s.(screen := s.screen[s.row * COLUMNS + s.col := CellValue(s.color, c)], col := s.col + 1);
    if t.col == COLUMNS then NewlineOf(t) else t
  }

  /** How many more spaces the tab needs (none on a tab stop). */
  function TabGap(col: int): int
  {
    if col % TAB_STOP == 0 then 0 else TAB_STOP - col % TAB_STOP
  }

  /** A printed character shrinks the gap to the next tab stop. */
  lemma TabGapShrinks(s: VgaState, c: int)
    requires Good(s) && s.col % TAB_STOP != 0
    ensures TabGap(PrintOf(s, c).col) < TabGap(s.col)
  {
    var col := PrintOf(s, c).col;
    if col != 0 {
      assert col == s.col + 1;
    }
  }

  /** Tab: spaces, at least one, until the column is a multiple of 8. */
  function TabOf(s: VgaState): (r: VgaState)
    requires Good(s)
    ensures Good(r) && r.color == s.color && r.flag == s.flag
    ensures r.col % TAB_STOP == 0
    decreases if s.col % TAB_STOP == 0 then TAB_STOP else TabGap(s.col)
  {
    var t := PrintOf(s, ' ' as int);
    if t.col % TAB_STOP == 0 then t else TabOf(t)
  }

  /** The flag after one character: a control code 10..12 arms it, anything else clears it. */
  function NextFlag(flag: int, c: int): int
  {
    if flag == 0 && 10 <= c <= 12 then c else 0
  }

  /**
   * A negative `char` after 10 or 11 would make a negative coordinate, and the
   * next `print` would write outside `m_screen`: only non-negative position
   * bytes are modelled.
   */
  predicate PositionOk(flag: int, c: int)
  {
    (flag == 10 || flag == 11) ==> c >= 0
  }

  /** `put_char`. */
  function PutCharOf(s: VgaState, c: SChar): (r: VgaState)
    requires Good(s) && PositionOk(s.flag, c)
    ensures Good(r) && r.flag == NextFlag(s.flag, c)
  {
    if s.flag == 0 then
      if c == 0 then s.(screen := Fill(SCREEN_SIZE), row := 0, col := 0)
      else if c == 1 then s.(row := 0, col := 0)
      else if c == 8 then (if s.col != 0 then s.(col := s.col - 1) else s)
      else if c == 9 then TabOf(s)
      else if 10 <= c <= 12 then s.(flag := c)
      else if c == 13 then NewlineOf(s)
      else PrintOf(s, c)
    else if s.flag == 10 then s.(col := CRem(c, COLUMNS), flag := 0)
    else if s.flag == 11 then s.(row := CRem(c, ROWS), flag := 0)
    else s.(color := c % 8, flag := 0)
  }

  /** The flag after a whole text. */
  function FlagAfter(flag: int, text: seq<SChar>): int
  {
    if text == [] then flag else NextFlag(FlagAfter(flag, text[..|text| - 1]), text[|text| - 1])
  }

  /** No negative position byte anywhere in `text`. */
  predicate PositionsOk(flag: int, text: seq<SChar>)
  {
    forall i {:trigger FlagAfter(flag, text[..i])} :: 0 <= i < |text| ==> PositionOk(FlagAfter(flag, text[..i]), text[i])
  }

  /** The characters of `text`, in order. */
  function PutsOf(s: VgaState, text: seq<SChar>): (r: VgaState)
    requires Good(s) && PositionsOk(s.flag, text)
    ensures Good(r) && r.flag == FlagAfter(s.flag, text)
  {
    if text == [] then s
    else
      var front := text[..|text| - 1];
      assert PositionsOk(s.flag, front) by {
        forall i | 0 <= i < |front|
          ensures PositionOk(FlagAfter(s.flag, front[..i]), front[i])
        {
          assert front[..i] == text[..i];
        }
      }
      assert front == text[..|text| - 1];
      PutCharOf(PutsOf(s, front), text[|text| - 1])
  }

  // ---------------------------------------------------------------- properties

  /** `print` writes exactly the cell under the cursor, then moves one column right or to the next row. */
  lemma PrintWrites(s: VgaState, c: int)
    requires Good(s)
    ensures var r := PrintOf(s, c);
      var written := s.screen[s.row * COLUMNS + s.col := CellValue(s.color, c)];
      && (s.col + 1 < COLUMNS ==> r.screen == written && r.row == s.row && r.col == s.col + 1)
      && (s.col + 1 == COLUMNS && s.row + 1 < ROWS ==> r.screen == written && r.row == s.row + 1 && r.col == 0)
      && (s.col + 1 == COLUMNS && s.row + 1 == ROWS ==> r.screen == Scrolled(written) && r.row == s.row && r.col == 0)
  {
  }

  /** Scrolling moves every row up by one and blanks the last. */
  lemma ScrollMovesRows(screen: seq<Cell>)
    requires |screen| == SCREEN_SIZE
    ensures forall i :: 0 <= i < LAST_ROW ==> Scrolled(screen)[i] == screen[i + COLUMNS]
    ensures forall i :: LAST_ROW <= i < SCREEN_SIZE ==> Scrolled(screen)[i] == BLANK
  {
  }

  /** The control codes 10, 11 and 12 arm the flag and change nothing else; the next byte sets the position or colour and writes no cell. */
  lemma ControlPrefix(s: VgaState, code: SChar, c: SChar)
    requires Good(s) && s.flag == 0 && 10 <= code <= 12 && c >= 0
    ensures var t := PutCharOf(s, code);
      t == s.(flag := code)
    ensures var r := PutCharOf(PutCharOf(s, code), c);
      && r.screen == s.screen && r.flag == 0
      && r == (if code == 10 then s.(col := c % COLUMNS) else if code == 11 then s.(row := c % ROWS) else s.(color := c % 8))
  {
  }

  /** The next tab stop after `col` (always at least one column on), wrapping to 0 at the end of the row. */
  function NextStop(col: int): int
  {
    (col / TAB_STOP + 1) * TAB_STOP % COLUMNS
  }

  /** `screen` with the `n` words from `at` on set to `v`. */
  function Spaces(screen: seq<Cell>, at: nat, n: nat, v: Cell): (r: seq<Cell>)
    requires at + n <= |screen|
    ensures |r| == |screen|
    decreases n
  {
    if n == 0 then screen else Spaces(screen[at := v], at + 1, n - 1, v)
  }

  /** Exactly the words `at .. at+n-1` hold `v` afterwards; the others are kept. */
  lemma {:induction false} SpacesCells(screen: seq<Cell>, at: nat, n: nat, v: Cell)
    requires at + n <= |screen|
    ensures forall i :: 0 <= i < |screen| ==> Spaces(screen, at, n, v)[i] == if at <= i < at + n then v else screen[i]
    decreases n
  {
    if n > 0 {
      SpacesCells(screen[at := v], at + 1, n - 1, v);
    }
  }

  /** Tab moves to the next stop; within a row it writes spaces into the cells it passes and nothing else. */
  lemma {:induction false} TabStops(s: VgaState)
    requires Good(s)
    ensures TabOf(s).col == NextStop(s.col)
    ensures s.col < COLUMNS - TAB_STOP ==>
      && TabOf(s).row == s.row
      && TabOf(s).screen == Spaces(s.screen, s.row * COLUMNS + s.col, NextStop(s.col) - s.col, CellValue(s.color, ' ' as int))
    decreases if s.col % TAB_STOP == 0 then TAB_STOP else TabGap(s.col)
  {
    var t := PrintOf(s, ' ' as int);
    if t.col % TAB_STOP == 0 {
      TabLast(s);
    } else {
      TabStops(t);
      TabMore(s);
    }
  }

  /** A space that does not reach a tab stop leaves the rest of the tab to the next column. */
  lemma TabMore(s: VgaState)
    requires Good(s) && PrintOf(s, ' ' as int).col % TAB_STOP != 0
    requires var t := PrintOf(s, ' ' as int);
      && TabOf(t).col == NextStop(t.col)
      && (t.col < COLUMNS - TAB_STOP ==>
        && TabOf(t).row == t.row
        && TabOf(t).screen == Spaces(t.screen, t.row * COLUMNS + t.col, NextStop(t.col) - t.col, CellValue(t.color, ' ' as int)))
    ensures TabOf(s).col == NextStop(s.col)
    ensures s.col < COLUMNS - TAB_STOP ==>
      && TabOf(s).row == s.row
      && TabOf(s).screen == Spaces(s.screen, s.row * COLUMNS + s.col, NextStop(s.col) - s.col, CellValue(s.color, ' ' as int))
  {
    var t := PrintOf(s, ' ' as int);
    assert t.col == s.col + 1 && t.row == s.row && t.screen == s.screen[s.row * COLUMNS + s.col := CellValue(s.color, ' ' as int)] by {
      PrintWrites(s, ' ' as int);
    }
    SameStop(s.col);
  }

  /** The space that reaches a tab stop is the tab's last one. */
  lemma TabLast(s: VgaState)
    requires Good(s) && PrintOf(s, ' ' as int).col % TAB_STOP == 0
    ensures var t := PrintOf(s, ' ' as int);
      && t.col == NextStop(s.col)
      && (s.col < COLUMNS - TAB_STOP ==>
        t.row == s.row && t.screen == Spaces(s.screen, s.row * COLUMNS + s.col, NextStop(s.col) - s.col, CellValue(s.color, ' ' as int)))
  {
    PrintWrites(s, ' ' as int);
  }

  /** Off a tab stop, the next column shares the column's next stop. */
  lemma SameStop(col: int)
    requires 0 <= col && (col + 1) % TAB_STOP != 0
    ensures NextStop(col + 1) == NextStop(col)
  {
    assert (col + 1) / TAB_STOP == col / TAB_STOP;
  }

  /** `set_colors`' long for one palette pair: `f<<24 + b<<16 + f<<8 + b` (or f, f, b, b), wrapped to 32 bits. */
  function ColorLong(hi: int, mid: int, low: int, last: int): (r: int)
    ensures 0 <= r < TWO_32
  {
    (hi * 0x100_0000 + mid * 0x1_0000 + low * 0x100 + last) % TWO_32
  }

  /** Appending a byte to a number and taking it off again. */
  lemma ByteShift(x: nat, b: int)
    requires 0 <= b < 256
    ensures (x * 256 + b) / 256 == x && (x * 256 + b) % 256 == b
  {
  }

  /** When the shifted palette bytes fit in a byte (%%rgb values below 64) the four bytes of an entry are those colours. */
  lemma ColorBytes(hi: int, mid: int, low: int, last: int)
    requires 0 <= hi < 256 && 0 <= mid < 256 && 0 <= low < 256 && 0 <= last < 256
    ensures var r := ColorLong(hi, mid, low, last);
      r / 0x100_0000 == hi && (r / 0x1_0000) % 256 == mid && (r / 0x100) % 256 == low && r % 256 == last
  {
    var a := hi * 256 + mid;
    var b := a * 256 + low;
    var r := b * 256 + last;
    assert r == hi * 0x100_0000 + mid * 0x1_0000 + low * 0x100 + last;
    assert r < TWO_32;
    assert ColorLong(hi, mid, low, last) == r;
    ByteShift(b, last);
    ByteShift(a, low);
    ByteShift(hi, mid);
    assert r / 0x1_0000 == (r / 256) / 256;
    assert r / 0x100_0000 == ((r / 256) / 256) / 256;
  }

  /** The palette entries `set_colors` writes for pair `i`. */
  function Entries(palette: seq<Byte>, i: nat): (int, int)
    requires 2 * i + 1 < |palette|
  {
    var fore: int, back: int := palette[2 * i] as int * 4, palette[2 * i + 1] as int * 4;
    (ColorLong(fore, back, fore, back), ColorLong(fore, fore, back, back))
  }

  /** The colour longs after `set_colors(palette)`: two per foreground/background pair. */
  ghost predicate ColorTable(colors: seq<int>, palette: seq<Byte>)
    requires |palette| >= 16
  {
    |colors| == 16 && forall i :: 0 <= i < 8 ==> colors[2 * i] == Entries(palette, i).0 && colors[2 * i + 1] == Entries(palette, i).1
  }

  /** The default palette of `start`. */
  const PALETTE: seq<Byte> := [
    0x3f, 0x01, 0x3c, 0x14, 0x22, 0x00, 0x15, 0x3f,
    0x0f, 0x05, 0x08, 0x2e, 0x10, 0x35, 0x0f, 0x03]

  // ---------------------------------------------------------------- the driver

  class Terminal {
    var col: int
    var row: int
    var color: int
    var flag: int
    const colors: array<U32>
    const screen: array<Cell>

    function State(): VgaState
      reads this, screen
    {
      VgaState(screen[..], row, col, color, flag)
    }

    ghost predicate Valid()
      reads this, screen, colors
    {
      colors.Length == 16 && Good(State())
    }

    /** The state `start` leaves: the default palette, a cleared screen, the cursor home. */
    constructor ()
      ensures Valid() && fresh(screen) && fresh(colors)
      ensures State() == VgaState(Fill(SCREEN_SIZE), 0, 0, 0, 0)
      ensures ColorTable(colors[..], PALETTE)
    {
      colors := new U32[16];
      screen := new Cell[SCREEN_SIZE];
      row, col, color, flag := 0, 0, 0, 0;
      new;
      SetColors(PALETTE);
      PutChar(0);
    }

    /** `set_colors`. */
    method SetColors(palette: seq<Byte>)
      requires colors.Length == 16 && |palette| >= 16
      modifies colors
      ensures ColorTable(colors[..], palette)
    {
      var i := 0;
      while i <= 7
        invariant 0 <= i <= 8
        invariant forall j :: 0 <= j < i ==> colors[2 * j] == Entries(palette, j).0 && colors[2 * j + 1] == Entries(palette, j).1
      {
        var fore: int, back: int := palette[2 * i] as int * 4, palette[2 * i + 1] as int * 4;
        colors[2 * i] := ColorLong(fore, back, fore, back);
        colors[2 * i + 1] := ColorLong(fore, fore, back, back);
        i := i + 1;
      }
    }

    /** The 480 words set to the blank cell. */
    method ClearScreen()
      requires screen.Length == SCREEN_SIZE
      modifies screen
      ensures screen[..] == Fill(SCREEN_SIZE)
    {
      var fill := 0;
      while fill < SCREEN_SIZE
        invariant 0 <= fill <= SCREEN_SIZE
        invariant forall i :: 0 <= i < fill ==> screen[i] == BLANK
      {
        screen[fill] := BLANK;
        fill := fill + 1;
      }
    }

    /** The `memmove` of `newline`: words 32.. move to 0.., one at a time from the front. */
    method MoveRowsUp()
      requires screen.Length == SCREEN_SIZE
      modifies screen
      ensures screen[..LAST_ROW] == old(screen[COLUMNS..]) && screen[LAST_ROW..] == old(screen[LAST_ROW..])
    {
      var i := 0;
      while i < LAST_ROW
        invariant 0 <= i <= LAST_ROW
        invariant forall j :: 0 <= j < i ==> screen[j] == old(screen[j + COLUMNS])
        invariant forall j :: i <= j < SCREEN_SIZE ==> screen[j] == old(screen[j])
      {
        screen[i] := screen[i + COLUMNS];
        i := i + 1;
      }
    }

    /** The last row set to the blank cell. */
    method ClearLastRow()
      requires screen.Length == SCREEN_SIZE
      modifies screen
      ensures screen[..LAST_ROW] == old(screen[..LAST_ROW]) && screen[LAST_ROW..] == Fill(COLUMNS)
    {
      var i := LAST_ROW;
      while i < SCREEN_SIZE
        invariant LAST_ROW <= i <= SCREEN_SIZE
        invariant forall j :: LAST_ROW <= j < i ==> screen[j] == BLANK
        invariant screen[..LAST_ROW] == old(screen[..LAST_ROW])
      {
        screen[i] := BLANK;
        i := i + 1;
      }
    }

    method Newline()
      requires screen.Length == SCREEN_SIZE && 0 <= row < ROWS
      modifies this, screen
      ensures State() == NewlineOf(old(State()))
    {
      col := 0;
      row := row + 1;
      if row == ROWS {
        row := row - 1;
        MoveRowsUp();
        ClearLastRow();
        assert screen[..] == screen[..LAST_ROW] + screen[LAST_ROW..];
      }
    }

    method Print(c: int)
      requires Valid()
      modifies this, screen
      ensures Valid() && State() == PrintOf(old(State()), c)
    {
      screen[row * COLUMNS + col] := CellValue(color, c);
      col := col + 1;
      if col == COLUMNS {
        Newline();
      }
    }

    method Tab()
      requires Valid()
      modifies this, screen
      ensures Valid() && State() == TabOf(old(State()))
    {
      Print(' ' as int);
      ghost var goal := TabOf(old(State()));
      while col % TAB_STOP != 0
        invariant Valid()
        invariant goal == if col % TAB_STOP == 0 then State() else TabOf(State())
        decreases TabGap(col)
      {
        TabGapShrinks(State(), ' ' as int);
        Print(' ' as int);
      }
    }

    method PutChar(c: SChar)
      requires Valid() && PositionOk(flag, c)
      modifies this, screen
      ensures Valid() && State() == PutCharOf(old(State()), c)
    {
      if flag == 0 {
        if c == 0 {
          ClearScreen();
          row := 0;
          col := row;
        } else if c == 1 {
          row := 0;
          col := row;
        } else if c == 8 {
          if col != 0 {
            col := col - 1;
          }
        } else if c == 9 {
          Tab();
        } else if 10 <= c <= 12 {
          flag := c;
          return;
        } else if c == 13 {
          Newline();
        } else {
          Print(c);
        }
      } else if flag == 10 {
        col := CRem(c, COLUMNS);
      } else if flag == 11 {
        row := CRem(c, ROWS);
      } else {
        color := c % 8;
      }
      flag := 0;
    }

    /** `puts`: every character before the terminating 0, in order. */
    method Puts(text: seq<SChar>)
      requires Valid() && PositionsOk(flag, text[..CStrLen(text)])
      modifies this, screen
      ensures Valid() && State() == PutsOf(old(State()), text[..CStrLen(text)])
    {
      var i := 0;
      while i < |text| && text[i] != 0
        invariant i <= CStrLen(text)
        invariant PositionsOk(old(flag), text[..i])
        invariant Valid() && State() == PutsOf(old(State()), text[..i])
      {
        PutsStep(old(State()), text, i, CStrLen(text));
        PutChar(text[i]);
        i := i + 1;
      }
    }
  }

  /** The length of a NUL-terminated text of signed chars. */
  function CStrLen(text: seq<SChar>): (n: nat)
    ensures n <= |text|
    ensures forall i :: 0 <= i < n ==> text[i] != 0
    ensures n < |text| ==> text[n] == 0
  {
    if text == [] || text[0] == 0 then 0 else 1 + CStrLen(text[1..])
  }

  /** One more character of a text whose positions are all fine. */
  lemma PutsStep(s: VgaState, text: seq<SChar>, i: nat, n: nat)
    requires Good(s) && i < n <= |text| && PositionsOk(s.flag, text[..n])
    ensures PositionsOk(s.flag, text[..i]) && PositionsOk(s.flag, text[..i + 1])
    ensures PositionOk(PutsOf(s, text[..i]).flag, text[i])
    ensures PutsOf(s, text[..i + 1]) == PutCharOf(PutsOf(s, text[..i]), text[i])
  {
    PositionsPrefix(s.flag, text[..n], i);
    PositionsPrefix(s.flag, text[..n], i + 1);
    assert text[..n][..i] == text[..i] && text[..n][..i + 1] == text[..i + 1];
    assert text[..i + 1][..i] == text[..i];
    assert text[..n][i] == text[i];
  }

  /** Appending one character to a text runs one more `put_char`. */
  lemma PutsSnoc(s: VgaState, text: seq<SChar>, c: SChar)
    requires Good(s) && PositionsOk(s.flag, text + [c])
    ensures PositionsOk(s.flag, text) && PositionOk(PutsOf(s, text).flag, c)
    ensures PutsOf(s, text + [c]) == PutCharOf(PutsOf(s, text), c)
  {
    var t := text + [c];
    PositionsPrefix(s.flag, t, |text|);
    assert t[..|text|] == text && t[|text|] == c;
    assert t[..|t| - 1] == text;
  }

  /** A text without negative characters never sets a negative coordinate. */
  lemma NonNegativePositions(flag: int, text: seq<SChar>)
    requires forall i :: 0 <= i < |text| ==> text[i] >= 0
    ensures PositionsOk(flag, text)
  {
  }

  /** One more non-negative character after a text without negative characters. */
  lemma PutsSnocPrintable(s: VgaState, text: seq<SChar>, c: SChar)
    requires Good(s) && c >= 0 && forall i :: 0 <= i < |text| ==> text[i] >= 0
    ensures PositionsOk(s.flag, text) && PositionOk(PutsOf(s, text).flag, c)
    ensures PositionsOk(s.flag, text + [c])
    ensures PutsOf(s, text + [c]) == PutCharOf(PutsOf(s, text), c)
  {
    NonNegativePositions(s.flag, text + [c]);
    PutsSnoc(s, text, c);
  }

  /** A prefix of a text with fine positions has fine positions. */
  lemma PositionsPrefix(flag: int, text: seq<SChar>, k: nat)
    requires k <= |text| && PositionsOk(flag, text)
    ensures PositionsOk(flag, text[..k])
    ensures k < |text| ==> PositionOk(FlagAfter(flag, text[..k]), text[k])
  {
    forall i | 0 <= i < k
      ensures PositionOk(FlagAfter(flag, text[..k][..i]), text[..k][i])
    {
      assert text[..k][..i] == text[..i];
    }
  }
}
