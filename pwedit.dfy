/**
 * PropWare's `PWEdit`: a terminal text viewer/editor driven by single keys.
 *
 * The model keeps the editor's three coordinate pairs (document position,
 * window origin, 1-indexed screen cursor) as a `View`, gives every cursor
 * operation as a pure step function on a `View` whose contract states the
 * promised motion and the invariant `Fits` that ties the pairs together, and
 * mirrors the C++ member functions in the class `Editor`, whose methods are
 * proved against those step functions. The printer is a trace of `Event`s,
 * the scanner a finite key sequence, and the two files are a character
 * sequence to read and a character sequence written, with their error results.
 */
module PwEdit {
  import opened Base
  import Files

  const PADDING: int := 3
  const CURSOR: char := '#'
  const SAVE_CHAR: char := 'w'
  const EXIT_CHAR: char := 'q'
  const EXIT_NO_SAVE: char := '!'
  const COMMAND_START: char := ':'
  const TO_LINE_START: char := '0'
  const TO_LINE_END: char := '$'
  const TO_FILE_START: char := 'g'
  const TO_FILE_END: char := 'G'

  const CALIBRATION: seq<char> := "Calibration...#"
  const TRIMMING: seq<char> := "Trimming..."
  const SAVING: seq<char> := "Saving...  "
  const UNSAVED: seq<char> := "UNSAVED CHANGES"
  const LINE_LABEL: seq<char> := "Line: "
  /** `sizeof(savingMessage + 1)`: the size of a pointer on the 32-bit Propeller. */
  const SAVE_COUNTER_COLUMN: int := 4

  /** What the editor sends to its printer. */
  datatype Event =
    | Bell
      /** `move_cursor(row, column)`: `ESC [ row ; column H`. */
    | Cursor(row: int, column: int)
    | Text(s: seq<char>)
    | Number(n: int)
      /** `show_cursor` / `hide_cursor`: `ESC [ ?25h` and `ESC [ ?25l`. */
    | CursorShown(shown: bool)
      /** The calibration frame of `columns` x `rows` cells, redrawn after a row is removed. */
    | Frame(columns: int, rows: int)

  /** `not_enter_key`. */
  predicate NotEnterKey(c: char)
  {
    c != '\r' && c != '\n' && c != NUL
  }

  /** `n` blanks. */
  function Spaces(n: nat): (r: seq<char>)
    ensures |r| == n && forall i :: 0 <= i < n ==> r[i] == ' '
  {
    if n == 0 then [] else Spaces(n - 1) + [' ']
  }

  // ---------------------------------------------------------------------------
  // The window and its rendering

  /** The lines of the file and the calibrated size of the terminal. */
  datatype Screen = Screen(lines: seq<seq<char>>, rows: int, columns: int)

  /** A terminal of at least one cell showing a file with at least as many lines as the terminal has rows. */
  predicate Shaped(s: Screen)
  {
    1 <= s.rows <= |s.lines| && 1 <= s.columns
  }

  /**
   * The last column the cursor may select in a line: `length - 1`, and 0 on an
   * empty line (where the C++ `length - 1` wraps around, see `LastIndexAsWritten`).
   */
  function LastColumn(line: seq<char>): (r: nat)
    ensures |line| > 0 ==> r < |line| && r + 1 == |line|
    ensures |line| == 0 ==> r == 0
  {
    if |line| == 0 then 0 else |line| - 1
  }

  /**
   * The editor's coordinates: the selected line and column of the file, the
   * column the user asked for, the first line and column of the window, and
   * the 1-indexed cursor position on the terminal.
   */
  datatype View = View(line: int, column: int, desired: int,
                       firstLine: int, firstColumn: int, termRow: int, termColumn: int)

  /** The horizontal half of `Fits`: the cursor column shows the selected column. */
  predicate Columnar(s: Screen, v: View)
  {
    0 <= v.firstColumn && 1 <= v.termColumn <= s.columns && v.column == v.firstColumn + v.termColumn - 1
  }

  /**
   * The editor invariant: the window lies within the file, the cursor is on the
   * terminal and shows the selected position, the selected column exists in
   * its line, and the desired column is never smaller than the selected one.
   */
  predicate Fits(s: Screen, v: View)
  {
    Framed(s, v) && v.column <= LastColumn(s.lines[v.line]) && v.column <= v.desired
  }

  /** The part of `Fits` that does not involve the selected column's line. */
  predicate Framed(s: Screen, v: View)
  {
    Shaped(s) &&
    0 <= v.firstLine && v.firstLine + s.rows <= |s.lines| &&
    1 <= v.termRow <= s.rows && v.line == v.firstLine + v.termRow - 1 &&
    Columnar(s, v)
  }

  /** The `columns` cells `print_line_at_row` prints for `line` from column `first`: its characters, then blanks. */
  function RowText(line: seq<char>, first: nat, columns: nat): (r: seq<char>)
    ensures |r| == columns
  {
    if columns == 0 then []
    else RowText(line, first, columns - 1) + [if first + columns - 1 < |line| then line[first + columns - 1] else ' ']
  }

  /** Cell `i` of a row shows character `first + i` of the line, or a blank past its end. */
  lemma {:induction false} RowTextCells(line: seq<char>, first: nat, columns: nat)
    ensures forall i :: 0 <= i < columns ==>
      RowText(line, first, columns)[i] == if first + i < |line| then line[first + i] else ' '
  {
    if columns > 0 {
      RowTextCells(line, first, columns - 1);
    }
  }

  /** `print_line_at_row(first, line, row)`. */
  function RowEvents(line: seq<char>, first: nat, row: int, columns: nat): seq<Event>
  {
    [Cursor(row, 1), Text(RowText(line, first, columns))]
  }

  /** `display_file_from(firstLine, firstColumn)` on a terminal of `rows` rows: row r shows line firstLine + r - 1. */
  function Window(lines: seq<seq<char>>, firstLine: nat, firstColumn: nat, rows: nat, columns: nat): (r: seq<Event>)
    requires firstLine + rows <= |lines|
    ensures |r| == 2 * rows
  {
    if rows == 0 then []
    else Window(lines, firstLine, firstColumn, rows - 1, columns) + RowEvents(lines[firstLine + rows - 1], firstColumn, rows, columns)
  }

  /** Row `row` of the window shows line `firstLine + row - 1`. */
  lemma {:induction false} WindowRows(lines: seq<seq<char>>, firstLine: nat, firstColumn: nat, rows: nat, columns: nat)
    requires firstLine + rows <= |lines|
    ensures var r := Window(lines, firstLine, firstColumn, rows, columns);
      forall row :: 1 <= row <= rows ==>
        r[2 * row - 2] == Cursor(row, 1) && r[2 * row - 1] == Text(RowText(lines[firstLine + row - 1], firstColumn, columns))
  {
    if rows > 0 {
      WindowRows(lines, firstLine, firstColumn, rows - 1, columns);
    }
  }

  /** A redraw never rings the bell. */
  lemma {:induction false} WindowQuiet(lines: seq<seq<char>>, firstLine: nat, firstColumn: nat, rows: nat, columns: nat)
    requires firstLine + rows <= |lines|
    ensures Bell !in Window(lines, firstLine, firstColumn, rows, columns)
  {
    if rows > 0 {
      WindowQuiet(lines, firstLine, firstColumn, rows - 1, columns);
    }
  }

  /** The redraw of the window a view shows. */
  function Display(s: Screen, v: View): (r: seq<Event>)
    requires 0 <= v.firstLine && 0 <= v.firstColumn && 0 <= s.rows && 0 <= s.columns
    requires v.firstLine + s.rows <= |s.lines|
    ensures Bell !in r
  {
    WindowQuiet(s.lines, v.firstLine, v.firstColumn, s.rows, s.columns);
    Window(s.lines, v.firstLine, v.firstColumn, s.rows, s.columns)
  }

  /** A view after one operation, with what it printed. */
  datatype Step = Step(view: View, events: seq<Event>)

  /** A view after a column adjustment, and whether the window must be redrawn. */
  datatype Fit = Fit(view: View, redraw: bool)

  // ---------------------------------------------------------------------------
  // Horizontal moves

  /** `cursor_at_end`: the selected column is the last of its line. */
  predicate CursorAtEnd(s: Screen, v: View)
    requires 0 <= v.line < |s.lines|
  {
    LastColumn(s.lines[v.line]) <= v.column
  }

  /**
   * `move_right`: at the end of the line, a bell and no motion; otherwise one
   * column right, scrolling the window when the cursor is within `PADDING` of
   * the right edge and the line continues past the window. The desired column
   * follows the selected one.
   */
  function MoveRightOf(s: Screen, v: View): (r: Step)
    requires Fits(s, v)
    ensures Fits(s, r.view)
    ensures r.view.desired == r.view.column
    ensures r.view.line == v.line && r.view.firstLine == v.firstLine && r.view.termRow == v.termRow
    ensures CursorAtEnd(s, v) ==> r.view.column == v.column && r.view.firstColumn == v.firstColumn && r.events == [Bell]
    ensures !CursorAtEnd(s, v) ==> r.view.column == v.column + 1 && Bell !in r.events
    ensures !CursorAtEnd(s, v) ==>
      (r.view.firstColumn == v.firstColumn + 1 <==>
        s.columns - v.termColumn < PADDING && |s.lines[v.line]| > v.firstColumn + s.columns)
  {
    if CursorAtEnd(s, v) then
      Step(v.(desired := v.column), [Bell])
    else if s.columns - v.termColumn < PADDING && |s.lines[v.line]| > v.firstColumn + s.columns then
      var w := v.(column := v.column + 1, desired := v.column + 1, firstColumn := v.firstColumn + 1);
      Step(w, Display(s, w) + [Cursor(w.termRow, w.termColumn)])
    else
      var w := v.(column := v.column + 1, desired := v.column + 1, termColumn := v.termColumn + 1);
      Step(w, [Cursor(w.termRow, w.termColumn)])
  }

  /**
   * `move_left`: at column 0, a bell and no motion; otherwise one column left,
   * scrolling the window when the cursor is within `PADDING` of the left edge
   * and the window does not start at column 0.
   */
  function MoveLeftOf(s: Screen, v: View): (r: Step)
    requires Fits(s, v)
    ensures Fits(s, r.view)
    ensures r.view.desired == r.view.column
    ensures r.view.line == v.line && r.view.firstLine == v.firstLine && r.view.termRow == v.termRow
    ensures v.column == 0 ==> r.view.column == 0 && r.view.firstColumn == v.firstColumn && r.events == [Bell]
    ensures v.column != 0 ==> r.view.column == v.column - 1 && Bell !in r.events
    ensures v.column != 0 ==>
      (r.view.firstColumn == v.firstColumn - 1 <==> v.termColumn <= PADDING && v.firstColumn != 0)
  {
    if v.column == 0 then
      Step(v.(desired := v.column), [Bell])
    else if v.termColumn <= PADDING && v.firstColumn != 0 then
      var w := v.(column := v.column - 1, desired := v.column - 1, firstColumn := v.firstColumn - 1);
      Step(w, Display(s, w) + [Cursor(w.termRow, w.termColumn)])
    else
      var w := v.(column := v.column - 1, desired := v.column - 1, termColumn := v.termColumn - 1);
      Step(w, [Cursor(w.termRow, w.termColumn)])
  }

  // ---------------------------------------------------------------------------
  // Column selection on vertical moves

  /**
   * `trim_column_selection_to_fit`: when the target line is not longer than the
   * selected column, select its last column, moving the window origin there
   * (and asking for a redraw) if it lay to the right of it.
   */
  function TrimColumnOf(s: Screen, v: View, target: int): (r: Fit)
    requires Fits(s, v) && 0 <= target < |s.lines|
    ensures Columnar(s, r.view)
    ensures r.view.column == if |s.lines[target]| <= v.column then LastColumn(s.lines[target]) else v.column
    ensures r.view.column <= LastColumn(s.lines[target]) && r.view.column <= v.column
    ensures r.view.line == v.line && r.view.desired == v.desired
    ensures r.view.firstLine == v.firstLine && r.view.termRow == v.termRow
    ensures r.redraw <==> r.view.firstColumn != v.firstColumn
  {
    var length := |s.lines[target]|;
    if length <= v.column then
      var column := LastColumn(s.lines[target]);
      if v.firstColumn > column then
        Fit(v.(column := column, firstColumn := column, termColumn := 1), true)
      else
        Fit(v.(column := column, termColumn := column - v.firstColumn + 1), false)
    else
      Fit(v, false)
  }

  /**
   * The column `expand_column_selection_to_desired` restores on a line of
   * `length` characters: the desired column when the line is longer than it,
   * otherwise the line's last column.
   */
  function Restored(length: nat, desired: int): int
  {
    if length > desired then desired else if length == 0 then 0 else length - 1
  }

  /**
   * `expand_column_selection_to_desired`: when the target line extends past the
   * column selected before the move and the user wanted a different column,
   * select the desired column or the last of the line, whichever comes first,
   * scrolling the window right (and asking for a redraw) when that column lies
   * past its right edge.
   */
  function ExpandColumnOf(s: Screen, v: View, target: int, previous: int): (r: Fit)
    requires Shaped(s) && Columnar(s, v) && 0 <= target < |s.lines|
    requires v.column <= previous <= v.desired && v.column <= LastColumn(s.lines[target])
    ensures Columnar(s, r.view)
    ensures r.view.column ==
      if LastColumn(s.lines[target]) > previous && v.desired != previous
      then Restored(|s.lines[target]|, v.desired) else v.column
    ensures r.view.column <= LastColumn(s.lines[target]) && r.view.column <= v.desired
    ensures r.view.line == v.line && r.view.desired == v.desired
    ensures r.view.firstLine == v.firstLine && r.view.termRow == v.termRow
    ensures r.redraw <==> r.view.firstColumn != v.firstColumn
  {
    var length := |s.lines[target]|;
    if LastColumn(s.lines[target]) > previous && v.desired != previous then
      var column := Restored(length, v.desired);
      if v.firstColumn + s.columns <= column then
        Fit(v.(column := column, firstColumn := column - s.columns + 1, termColumn := s.columns), true)
      else
        Fit(v.(column := column, termColumn := column - v.firstColumn + 1), false)
    else
      Fit(v, false)
  }

  // ---------------------------------------------------------------------------
  // Jumps

  /**
   * `to_file_start`: everything back to line 0, column 0, with the cursor at
   * (1, 1); the window is redrawn only when its origin was not (0, 0).
   */
  function ToFileStartOf(s: Screen, v: View): (r: Step)
    requires Shaped(s)
    ensures Fits(s, r.view)
    ensures r.view == View(0, 0, 0, 0, 0, 1, 1)
    ensures r.events ==
      (if v.firstLine != 0 || v.firstColumn != 0 then Window(s.lines, 0, 0, s.rows, s.columns) else []) + [Cursor(1, 1)]
  {
    var w := View(0, 0, 0, 0, 0, 1, 1);
    Step(w, (if v.firstLine != 0 || v.firstColumn != 0 then Display(s, w) else []) + [Cursor(1, 1)])
  }

  /**
   * `to_file_end`: the last column of the last line, with the last line on the
   * bottom row of the terminal and the window scrolled right just far enough to
   * show that column; redrawn when the window was elsewhere.
   */
  function ToFileEndOf(s: Screen, v: View): (r: Step)
    requires Shaped(s)
    ensures Fits(s, r.view)
    ensures var last := s.lines[|s.lines| - 1];
      r.view.line == |s.lines| - 1 && r.view.column == LastColumn(last) && r.view.desired == r.view.column &&
      r.view.firstLine == |s.lines| - s.rows && r.view.termRow == s.rows &&
      r.view.firstColumn == (if |last| > s.columns then |last| - s.columns else 0)
    ensures var redraw := v.firstLine != |s.lines| - s.rows || v.firstColumn > LastColumn(s.lines[|s.lines| - 1]);
      r.events == (if redraw then Display(s, r.view) else []) + [Cursor(r.view.termRow, r.view.termColumn)]
  {
    var last := s.lines[|s.lines| - 1];
    var redraw := v.firstLine != |s.lines| - s.rows || v.firstColumn > LastColumn(last);
    var firstColumn := if |last| > s.columns then |last| - s.columns else 0;
    var termColumn := if |last| > s.columns then s.columns else LastColumn(last) + 1;
    var w := View(|s.lines| - 1, LastColumn(last), LastColumn(last), |s.lines| - s.rows, firstColumn, s.rows, termColumn);
    Step(w, (if redraw then Display(s, w) else []) + [Cursor(w.termRow, w.termColumn)])
  }

  /**
   * `to_file_end` from where `to_file_end` left the editor changes nothing
   * and redraws nothing: only the cursor is placed again.
   */
  lemma ToFileEndIdempotent(s: Screen, v: View)
    requires Shaped(s)
    ensures var r := ToFileEndOf(s, v);
      ToFileEndOf(s, r.view) == Step(r.view, [Cursor(r.view.termRow, r.view.termColumn)])
  {
    var r := ToFileEndOf(s, v);
    var again := ToFileEndOf(s, r.view);
    assert again.view == r.view;
  }

  /** `ToFileEndOf` written out: the view it settles on and what it prints. */
  lemma ToFileEndShape(s: Screen, v: View)
    requires Shaped(s)
    ensures var last := s.lines[|s.lines| - 1];
      var firstColumn := if |last| > s.columns then |last| - s.columns else 0;
      var termColumn := if |last| > s.columns then s.columns else LastColumn(last) + 1;
      var redraw := v.firstLine != |s.lines| - s.rows || v.firstColumn > LastColumn(last);
      ToFileEndOf(s, v) ==
        Step(View(|s.lines| - 1, LastColumn(last), LastColumn(last), |s.lines| - s.rows, firstColumn, s.rows, termColumn),
             (if redraw then Window(s.lines, |s.lines| - s.rows, firstColumn, s.rows, s.columns) else []) + [Cursor(s.rows, termColumn)])
  {
  }

  /** `to_line_start`: column 0, redrawing only when the window did not start at column 0. */
  function ToLineStartOf(s: Screen, v: View): (r: Step)
    requires Fits(s, v)
    ensures Fits(s, r.view)
    ensures r.view == v.(column := 0, desired := 0, firstColumn := if v.column == 0 then v.firstColumn else 0,
                         termColumn := if v.column == 0 then v.termColumn else 1)
    ensures v.column == 0 ==> r.events == []
  {
    if v.column != 0 then
      var w := v.(column := 0, desired := 0, firstColumn := 0, termColumn := 1);
      Step(w, (if v.firstColumn != 0 then Display(s, w) else []) + [Cursor(w.termRow, 1)])
    else
      Step(v.(desired := v.column), [])
  }

  /** `to_line_end`: the last column of the line, scrolling right when the line runs past the window. */
  function ToLineEndOf(s: Screen, v: View): (r: Step)
    requires Fits(s, v)
    ensures Fits(s, r.view)
    ensures r.view.column == LastColumn(s.lines[v.line]) && r.view.desired == r.view.column
    ensures r.view.line == v.line && r.view.firstLine == v.firstLine && r.view.termRow == v.termRow
    ensures CursorAtEnd(s, v) ==> r.view.firstColumn == v.firstColumn && r.events == []
    ensures !CursorAtEnd(s, v) ==>
      (r.view.firstColumn != v.firstColumn <==> |s.lines[v.line]| > v.firstColumn + s.columns)
  {
    if !CursorAtEnd(s, v) then
      var length := |s.lines[v.line]|;
      if length > v.firstColumn + s.columns then
        var w := v.(column := length - 1, desired := length - 1, firstColumn := length - s.columns, termColumn := s.columns);
        Step(w, Display(s, w) + [Cursor(w.termRow, w.termColumn)])
      else
        var w := v.(column := length - 1, desired := length - 1, termColumn := length - v.firstColumn);
        Step(w, [Cursor(w.termRow, w.termColumn)])
    else
      Step(v.(desired := v.column), [])
  }

  // ---------------------------------------------------------------------------
  // Vertical moves

  /**
   * `move_down`: on the last line, a bell when already on its last column and
   * otherwise a jump to the end of the file. Elsewhere the next line is
   * selected, the column clamped to it and restored towards the desired one,
   * and the window scrolls down one line when the cursor is within `PADDING`
   * of the bottom and lines remain below the window.
   */
  function MoveDownOf(s: Screen, v: View): (r: Step)
    requires Fits(s, v)
    ensures Fits(s, r.view) && r.view.desired >= r.view.column
    ensures v.line + 1 == |s.lines| && LastColumn(s.lines[v.line]) == v.column ==> r == Step(v, [Bell])
    ensures v.line + 1 == |s.lines| && LastColumn(s.lines[v.line]) != v.column ==> r == ToFileEndOf(s, v)
    ensures v.line + 1 < |s.lines| ==>
      r.view.line == v.line + 1 && r.view.desired == v.desired && Bell !in r.events &&
      (r.view.firstLine == v.firstLine + 1 <==> s.rows - v.termRow < PADDING && |s.lines| > v.firstLine + s.rows) &&
      (r.view.firstLine == v.firstLine <==> r.view.termRow == v.termRow + 1)
  {
    if |s.lines| - 1 <= v.line then
      if LastColumn(s.lines[v.line]) == v.column then Step(v, [Bell]) else ToFileEndOf(s, v)
    else
      var t := TrimColumnOf(s, v, v.line + 1);
      var e := ExpandColumnOf(s, t.view, v.line + 1, v.column);
      DescendOf(s, e.view, t.redraw || e.redraw)
  }

  /**
   * The second half of `move_down`, once the column fits the next line: the
   * window scrolls down one line when the cursor is within `PADDING` of the
   * bottom and lines remain below it; otherwise the cursor moves down a row,
   * after a redraw when the column adjustment asked for one.
   */
  function DescendOf(s: Screen, w: View, redraw: bool): Step
    requires Framed(s, w)
  {
    if s.rows - w.termRow < PADDING && |s.lines| > w.firstLine + s.rows then
      var x := w.(line := w.line + 1, firstLine := w.firstLine + 1);
      Step(x, Display(s, x) + [Cursor(x.termRow, x.termColumn)])
    else
      var x := w.(line := w.line + 1, termRow := w.termRow + 1);
      Step(x, (if redraw then Display(s, w) else []) + [Cursor(x.termRow, x.termColumn)])
  }

  /**
   * `move_up`: on line 0, a jump to the start of the file when the column is
   * not 0 and a bell otherwise. Elsewhere the previous line is selected with
   * the same column rules as `move_down`, and the window scrolls up one line
   * when the cursor is within `PADDING` of the top and the window does not
   * start at line 0.
   */
  function MoveUpOf(s: Screen, v: View): (r: Step)
    requires Fits(s, v)
    ensures Fits(s, r.view) && r.view.desired >= r.view.column
    ensures v.line == 0 && v.column == 0 ==> r == Step(v, [Bell])
    ensures v.line == 0 && v.column != 0 ==> r == ToFileStartOf(s, v)
    ensures v.line != 0 ==>
      r.view.line == v.line - 1 && r.view.desired == v.desired && Bell !in r.events &&
      (r.view.firstLine == v.firstLine - 1 <==> v.termRow <= PADDING && v.firstLine != 0) &&
      (r.view.firstLine == v.firstLine <==> r.view.termRow == v.termRow - 1)
  {
    if v.line == 0 then
      if v.column != 0 then ToFileStartOf(s, v) else Step(v, [Bell])
    else
      var t := TrimColumnOf(s, v, v.line - 1);
      var e := ExpandColumnOf(s, t.view, v.line - 1, v.column);
      AscendOf(s, e.view, t.redraw || e.redraw)
  }

  /**
   * The second half of `move_up`, once the column fits the previous line: the
   * window scrolls up one line when the cursor is within `PADDING` of the top
   * and the window does not start at line 0; otherwise the cursor moves up a
   * row, after a redraw when the column adjustment asked for one.
   */
  function AscendOf(s: Screen, w: View, redraw: bool): Step
    requires Framed(s, w)
  {
    if w.termRow <= PADDING && w.firstLine != 0 then
      var x := w.(line := w.line - 1, firstLine := w.firstLine - 1);
      Step(x, Display(s, x) + [Cursor(x.termRow, x.termColumn)])
    else
      var x := w.(line := w.line - 1, termRow := w.termRow - 1);
      Step(x, (if redraw then Display(s, w) else []) + [Cursor(x.termRow, x.termColumn)])
  }

  // ---------------------------------------------------------------------------
  // As written: unsigned column arithmetic and the off-by-one scrolls

  /** `lineLength - 1` in `unsigned int`: 2^32 - 1 on an empty line. */
  function LastIndexAsWritten(length: U32): (r: U32)
    ensures length > 0 ==> r == length - 1
  {
    USub(length, 1)
  }

  /** `cursor_at_end` as written, for a line of `length` characters. */
  predicate CursorAtEndAsWritten(length: U32, column: U32)
  {
    LastIndexAsWritten(length) <= column
  }

  /** The column `trim_column_selection_to_fit` selects as written. */
  function TrimmedColumnAsWritten(length: U32, column: U32): (r: U32)
    ensures length > column ==> r == column
  {
    if length <= column then LastIndexAsWritten(length) else column
  }

  /**
   * Moving onto an empty line selects column 4294967295, and on an empty line
   * `cursor_at_end` does not hold, so `move_right` walks past the line's end.
   */
  lemma EmptyLineWraps(column: U32)
    ensures TrimmedColumnAsWritten(0, column) == TWO_32 - 1
    ensures column < TWO_32 - 1 ==> !CursorAtEndAsWritten(0, column)
  {
  }

  /**
   * `expand_column_selection_to_desired` as written: the desired column is taken
   * whenever the line is at least that long, and the window scrolls only when
   * the column lies strictly past `firstColumn + columns`, to `column - columns`.
   */
  function ExpandColumnAsWritten(s: Screen, v: View, target: int, previous: int): (r: Fit)
    requires 0 <= target < |s.lines| && |s.lines[target]| < TWO_32
    ensures r.view.line == v.line && r.view.desired == v.desired
    ensures r.view.firstLine == v.firstLine && r.view.termRow == v.termRow
  {
    var length := |s.lines[target]|;
    if LastIndexAsWritten(length) > previous && v.desired != previous then
      var column := if length >= v.desired then v.desired else LastIndexAsWritten(length);
      if v.firstColumn + s.columns < column then
        Fit(v.(column := column, firstColumn := column - s.columns, termColumn := s.columns), true)
      else
        Fit(v.(column := column, termColumn := column - v.firstColumn + 1), false)
    else
      Fit(v, false)
  }

  /**
   * From column 9 of a 10-character line, down to a 4-character line and down
   * again to a 9-character line: as written the desired column 9 is restored,
   * one past the line's last character; the corrected rule selects column 8.
   */
  lemma ExpandPastEnd()
    ensures var s := Screen(["aaaaaaaaaa", "aaaa", "aaaaaaaaa"], 1, 20);
      var v := View(1, 3, 9, 1, 0, 1, 4);
      Fits(s, v) &&
      ExpandColumnAsWritten(s, v, 2, 3).view.column == |s.lines[2]| &&
      ExpandColumnOf(s, v, 2, 3).view.column == LastColumn(s.lines[2]) == 8
  {
  }

  /**
   * On a one-row, 4-column terminal over lines of 10, 2 and 10 characters, from
   * column 1 of line 1 in a window starting at column 1: restoring column 9 on
   * line 2 scrolls the window to column 5, so the cursor in column 4 shows
   * column 8; restoring column 5 does not scroll at all and puts the cursor in
   * column 5, off the terminal. The corrected rule keeps `Columnar` in both cases.
   */
  lemma ExpandScrollOffByOne(s: Screen, far: View, near: View)
    requires s.rows == 1 && s.columns == 4
    requires |s.lines| == 3 && |s.lines[0]| == 10 && |s.lines[1]| == 2 && |s.lines[2]| == 10
    requires far == View(1, 1, 9, 1, 1, 1, 1) && near == View(1, 1, 5, 1, 1, 1, 1)
    ensures Fits(s, far) && Fits(s, near)
    ensures !Columnar(s, ExpandColumnAsWritten(s, far, 2, 1).view)
    ensures Columnar(s, ExpandColumnOf(s, far, 2, 1).view)
    ensures ExpandColumnAsWritten(s, near, 2, 1).view.termColumn == s.columns + 1
    ensures Columnar(s, ExpandColumnOf(s, near, 2, 1).view)
  {
  }

  /** `to_file_end` as written: the cursor column is `columns - 1` when the last line is wider than the terminal. */
  function ToFileEndAsWritten(s: Screen, v: View): (r: Step)
    requires Shaped(s) && |s.lines[|s.lines| - 1]| < TWO_32
    ensures r.view.line == |s.lines| - 1 && r.view.termRow == s.rows
  {
    var last := s.lines[|s.lines| - 1];
    var redraw := v.firstLine != |s.lines| - s.rows || v.firstColumn > LastIndexAsWritten(|last|);
    var firstColumn := if |last| > s.columns then |last| - s.columns else 0;
    var termColumn := if |last| > s.columns then s.columns - 1 else |last|;
    var w := View(|s.lines| - 1, LastIndexAsWritten(|last|), LastIndexAsWritten(|last|),
                  |s.lines| - s.rows, firstColumn, s.rows, termColumn);
    Step(w, (if redraw then Display(s, w) else []) + [Cursor(w.termRow, w.termColumn)])
  }

  /**
   * A 10-character last line on a 4-column terminal: as written the window
   * starts at column 6 and the cursor sits in column 3, showing column 8 while
   * column 9 is selected.
   */
  lemma ToFileEndOffByOne()
    ensures var s := Screen(["aaaaaaaaaa"], 1, 4);
      var r := ToFileEndAsWritten(s, View(0, 0, 0, 0, 0, 1, 1));
      r.view.column == 9 && r.view.firstColumn == 6 && r.view.termColumn == 3 && !Fits(s, r.view) &&
      Fits(s, ToFileEndOf(s, View(0, 0, 0, 0, 0, 1, 1)).view)
  {
  }

  // ---------------------------------------------------------------------------
  // Loading

  /** The characters a line keeps. */
  predicate Printable(c: char)
  {
    32 <= c as int <= 127
  }

  predicate Terminator(c: char)
  {
    c == '\r' || c == '\n'
  }

  /** The characters of a record the loader keeps: its printable ones, in order. */
  function Kept(record: seq<char>): (r: seq<char>)
    ensures forall i :: 0 <= i < |r| ==> Printable(r[i])
    ensures |r| <= |record|
  {
    if record == [] then []
    else Kept(record[..|record| - 1]) + if Printable(record[|record| - 1]) then [record[|record| - 1]] else []
  }

  /** A record of printable characters is kept whole. */
  lemma {:induction false} KeptPrintable(record: seq<char>)
    requires forall i :: 0 <= i < |record| ==> Printable(record[i])
    ensures Kept(record) == record
  {
    if record != [] {
      KeptPrintable(record[..|record| - 1]);
    }
  }

  /** The length of the record at the front of `text`: the index of its first '\r' or '\n', or |text| if none. */
  function RecordLength(text: seq<char>): (k: nat)
    ensures k <= |text| && (k < |text| ==> Terminator(text[k]))
    ensures forall i :: 0 <= i < k ==> !Terminator(text[i])
  {
    if text == [] || Terminator(text[0]) then 0 else 1 + RecordLength(text[1..])
  }

  /** Where the next record starts after the terminator at `k`: a '\n' that follows a '\r' ends the same line. */
  function NextRecord(text: seq<char>, k: nat): (n: nat)
    requires k < |text|
    ensures k < n <= |text|
  {
    if text[k] == '\r' && k + 1 < |text| && text[k + 1] == '\n' then k + 2 else k + 1
  }

  /** The lines read from a file, and whether its last record was terminated. */
  datatype Loaded = Loaded(lines: seq<seq<char>>, complete: bool)

  /**
   * The lines `read_in_file` (with a '\n' munched only after a '\r') loads
   * from a text: one line per terminated record, holding the record's
   * printable characters. An unterminated last record gives no line and
   * leaves the load incomplete; the editor reads only complete texts.
   */
  function Load(text: seq<char>): (r: Loaded)
    ensures r.complete <==> text == [] || Terminator(text[|text| - 1])
    ensures |r.lines| <= |text|
    decreases |text|
  {
    if text == [] then Loaded([], true)
    else
      var k := RecordLength(text);
      if k == |text| then Loaded([], false)
      else
        var next := NextRecord(text, k);
        var rest := Load(text[next..]);
        assert next < |text| ==> text[next..][|text[next..]| - 1] == text[|text| - 1];
        Loaded([Kept(text[..k])] + rest.lines, rest.complete)
  }

  /** Every loaded line holds printable characters only. */
  lemma {:induction false} LoadPrintable(text: seq<char>)
    ensures forall i, j :: 0 <= i < |Load(text).lines| && 0 <= j < |Load(text).lines[i]| ==> Printable(Load(text).lines[i][j])
    decreases |text|
  {
    if text != [] && RecordLength(text) < |text| {
      var k := RecordLength(text);
      var tail := text[NextRecord(text, k)..];
      LoadPrintable(tail);
      assert Load(text).lines == [Kept(text[..k])] + Load(tail).lines;
    }
  }

  /** `done` are the lines loaded from the text before `p`: loading from `p` on gives the rest. */
  predicate Loads(text: seq<char>, p: nat, done: seq<seq<char>>)
    requires p <= |text|
  {
    Load(text) == Loaded(done + Load(text[p..]).lines, Load(text[p..]).complete)
  }

  /** Whether the record starting at `p` has a line end. */
  predicate TerminatedAt(text: seq<char>, p: nat)
    requires p <= |text|
  {
    RecordLength(text[p..]) < |text| - p
  }

  /** The characters of the record starting at `p`, without its line end. */
  function RecordAt(text: seq<char>, p: nat): (r: seq<char>)
    requires p <= |text|
    ensures |r| == RecordLength(text[p..]) && r == text[p..p + |r|]
  {
    text[p..p + RecordLength(text[p..])]
  }

  /** Where the record after the one starting at `p` starts. */
  function AfterRecord(text: seq<char>, p: nat): (n: nat)
    requires p <= |text| && TerminatedAt(text, p)
    ensures p < n <= |text|
  {
    p + NextRecord(text[p..], RecordLength(text[p..]))
  }

  /** A text that is empty or ends with a line end: every record in it is terminated. */
  predicate EndsLine(text: seq<char>)
  {
    text == [] || Terminator(text[|text| - 1])
  }

  /** The record after the one at `p` starts past its line end, and past the '\n' of a "\r\n". */
  lemma AfterRecordAt(text: seq<char>, p: nat)
    requires p <= |text| && TerminatedAt(text, p)
    ensures var end := p + |RecordAt(text, p)|;
      end < |text| &&
      AfterRecord(text, p) == if text[end] == '\r' && end + 1 < |text| && text[end + 1] == '\n' then end + 2 else end + 1
  {
    var rest := text[p..];
    var k := RecordLength(rest);
    assert rest[k] == text[p + k];
    if k + 1 < |rest| {
      assert rest[k + 1] == text[p + k + 1];
    }
  }

  /** In a text that ends with a line end, the record at any position before the end is terminated. */
  lemma EndsLineTerminates(text: seq<char>, p: nat)
    requires p < |text| && EndsLine(text)
    ensures TerminatedAt(text, p)
  {
    var rest := text[p..];
    assert rest[|rest| - 1] == text[|text| - 1];
  }

  /** The record at `start` runs over characters that are not line ends up to the line end that closes it. */
  lemma RecordStops(text: seq<char>, start: nat)
    requires start <= |text| && TerminatedAt(text, start)
    ensures var end := start + |RecordAt(text, start)|;
      end < |text| && Terminator(text[end]) && forall i :: start <= i < end ==> !Terminator(text[i])
  {
    var rest := text[start..];
    var k := RecordLength(rest);
    assert forall i :: 0 <= i < k ==> rest[i] == text[start + i];
    assert rest[k] == text[start + k];
  }

  /** The record at `start` ends at the line end at `end - 1`, which the kept characters leave out. */
  lemma RecordEnds(text: seq<char>, start: nat, end: nat)
    requires start < end <= |text| && Terminator(text[end - 1])
    requires forall i :: start <= i < end - 1 ==> !Terminator(text[i])
    ensures TerminatedAt(text, start) && RecordAt(text, start) == text[start..end - 1]
    ensures Kept(text[start..end]) == Kept(RecordAt(text, start))
  {
    var rest := text[start..];
    var k := end - 1 - start;
    assert forall i :: 0 <= i < k ==> rest[i] == text[start + i];
    RecordLengthAt(rest, k);
    assert rest[..k] == text[start..end - 1];
    KeptStep(text, start, end - 1);
  }

  /** Reading one more character keeps it if it is printable. */
  lemma KeptStep(text: seq<char>, start: nat, p: nat)
    requires start <= p < |text|
    ensures Kept(text[start..p + 1]) == Kept(text[start..p]) + if Printable(text[p]) then [text[p]] else []
  {
    assert text[start..p + 1][..p - start] == text[start..p];
  }

  /** The record at `p` is the next line, and loading goes on after its line end. */
  lemma LoadNext(text: seq<char>, p: nat, done: seq<seq<char>>)
    requires p <= |text| && Loads(text, p, done) && TerminatedAt(text, p)
    ensures Loads(text, AfterRecord(text, p), done + [Kept(RecordAt(text, p))])
  {
    var rest := text[p..];
    var k := RecordLength(rest);
    var q := AfterRecord(text, p);
    assert rest[q - p..] == text[q..];
    assert rest[..k] == RecordAt(text, p);
    var line := Kept(RecordAt(text, p));
    assert Load(rest) == Loaded([line] + Load(text[q..]).lines, Load(text[q..]).complete);
    LoadJoin(text, p, q, done, line);
  }

  /** Loading from `p` gives `line` and then what loading from `q` gives. */
  lemma LoadJoin(text: seq<char>, p: nat, q: nat, done: seq<seq<char>>, line: seq<char>)
    requires p <= q <= |text| && Loads(text, p, done)
    requires Load(text[p..]) == Loaded([line] + Load(text[q..]).lines, Load(text[q..]).complete)
    ensures Loads(text, q, done + [line])
  {
    Associate(done, [line], Load(text[q..]).lines);
  }

  /** At the end of the text everything is loaded. */
  lemma LoadDone(text: seq<char>, done: seq<seq<char>>)
    requires Loads(text, |text|, done)
    ensures Load(text) == Loaded(done, true)
  {
    assert text[|text|..] == [];
    assert done + [] == done;
  }

  /**
   * A record that ends, line end and munched '\n' included, before a cut at
   * `f` that does not follow a '\r' is the same record in the text before `f`.
   */
  lemma PrefixRecord(text: seq<char>, f: nat, p: nat)
    requires p <= f <= |text| && TerminatedAt(text, p) && p + |RecordAt(text, p)| < f
    requires text[f - 1] != '\r'
    ensures AfterRecord(text, p) <= f
    ensures TerminatedAt(text[..f], p) && RecordAt(text[..f], p) == RecordAt(text, p)
    ensures AfterRecord(text[..f], p) == AfterRecord(text, p)
  {
    var r, r' := text[p..], text[..f][p..];
    assert r' == r[..f - p];
    var k := RecordLength(r);
    RecordStops(text, p);
    assert forall i :: 0 <= i <= k ==> r'[i] == r[i];
    RecordLengthAt(r', k);
    if r[k] == '\r' && k + 1 < |r| && r[k + 1] == '\n' {
      assert p + k + 1 != f;
    }
    assert r'[..k] == r[..k];
  }

  /**
   * A read failing at `f` inside the record at `p`, not right after a '\r',
   * falls on one of the record's characters or its line end, and the text
   * before `f` holds no further line from `p` on.
   */
  lemma FaultStops(text: seq<char>, f: nat, p: nat)
    requires p <= f < |text| && TerminatedAt(text, p) && f < AfterRecord(text, p)
    requires f == 0 || text[f - 1] != '\r'
    ensures f <= p + |RecordAt(text, p)|
    ensures Load(text[..f][p..]).lines == []
  {
    RecordStops(text, p);
    var rest := text[..f][p..];
    assert forall i :: 0 <= i < |rest| ==> rest[i] == text[p + i];
    if rest != [] {
      RecordLengthNone(rest);
    }
  }

  /** A text cut anywhere loads the first lines of the whole text: a cut can end the load early but never alter a line. */
  lemma LoadPrefix(text: seq<char>, f: nat)
    requires f <= |text|
    ensures Load(text[..f]).lines <= Load(text).lines
  {
    LoadOfPrefix(text[..f], text);
  }

  /** `LoadPrefix` for any prefix `cut` of `text`, by induction on the records of `cut`. */
  lemma {:induction false} LoadOfPrefix(cut: seq<char>, text: seq<char>)
    requires cut <= text
    ensures Load(cut).lines <= Load(text).lines
    decreases |cut|
  {
    if cut == [] || RecordLength(cut) == |cut| {
      LoadNoLine(cut);
    } else {
      var k, next, next' := CutRecord(cut, text);
      if next' == next {
        LoadOfPrefix(cut[next'..], text[next..]);
      } else {
        LoadNoLine(cut[next'..]);
      }
      LoadPrefixStep(cut, text, k, next, next');
    }
  }

  /** The step of `LoadOfPrefix`: the shared first line, then what loading after it gives. */
  lemma LoadPrefixStep(cut: seq<char>, text: seq<char>, k: nat, next: nat, next': nat)
    requires k < |cut| && k == RecordLength(cut) == RecordLength(text) && k < |text| && cut[..k] == text[..k]
    requires next == NextRecord(text, k) && next' == NextRecord(cut, k)
    requires Load(cut[next'..]).lines <= Load(text[next..]).lines
    ensures Load(cut).lines <= Load(text).lines
  {
    LoadFront(cut);
    LoadFront(text);
    PrefixAfter(Kept(text[..k]), Load(cut[next'..]).lines, Load(text[next..]).lines);
  }

  /**
   * The first record of a prefix that holds a line end is the first record
   * of the whole text, and loading goes on after it either at the same place,
   * with the rest of the prefix a prefix of the rest, or at the prefix's end.
   */
  lemma CutRecord(cut: seq<char>, text: seq<char>) returns (k: nat, next: nat, next': nat)
    requires cut <= text && RecordLength(cut) < |cut|
    ensures k == RecordLength(cut) == RecordLength(text) && k < |cut|
    ensures cut[..k] == text[..k]
    ensures next == NextRecord(text, k) && next' == NextRecord(cut, k)
    ensures next' == next ==> cut[next'..] <= text[next..]
    ensures next' != next ==> cut[next'..] == []
  {
    k := RecordLength(cut);
    assert forall i :: 0 <= i < |cut| ==> cut[i] == text[i];
    RecordLengthAt(text, k);
    next, next' := NextRecord(text, k), NextRecord(cut, k);
    if next' == next {
      assert forall i :: 0 <= i < |cut| - next ==> cut[next..][i] == text[next..][i];
    }
  }

  /** A text with no terminated record loads no line. */
  lemma LoadNoLine(text: seq<char>)
    requires text == [] || RecordLength(text) == |text|
    ensures Load(text).lines == []
  {
  }

  lemma PrefixAfter(line: seq<char>, xs: seq<seq<char>>, ys: seq<seq<char>>)
    requires xs <= ys
    ensures [line] + xs <= [line] + ys
  {
  }

  /** The first line of a text whose first record is terminated, and the rest loaded after it. */
  lemma LoadFront(text: seq<char>)
    requires RecordLength(text) < |text|
    ensures var k := RecordLength(text);
      Load(text).lines == [Kept(text[..k])] + Load(text[NextRecord(text, k)..]).lines
  {
  }

  /** The first character of a record's line end follows `k` characters that are not line ends. */
  lemma RecordLengthAt(text: seq<char>, k: nat)
    requires k < |text| && Terminator(text[k])
    requires forall i :: 0 <= i < k ==> !Terminator(text[i])
    ensures RecordLength(text) == k
  {
  }

  /** A text with no line end is one unterminated record. */
  lemma RecordLengthNone(text: seq<char>)
    requires forall i :: 0 <= i < |text| ==> !Terminator(text[i])
    ensures RecordLength(text) == |text|
  {
  }

  /** What `save` writes, corrected: each line followed by '\n'. */
  function SaveText(lines: seq<seq<char>>): (r: seq<char>)
    ensures |r| >= |lines|
  {
    if lines == [] then [] else lines[0] + ['\n'] + SaveText(lines[1..])
  }

  /** The record at the front of `line + "\n" + more` is `line` when `line` holds no terminator. */
  lemma {:induction false} RecordLengthOfLine(line: seq<char>, more: seq<char>)
    requires forall i :: 0 <= i < |line| ==> !Terminator(line[i])
    ensures RecordLength(line + ['\n'] + more) == |line|
  {
    if line != [] {
      assert (line + ['\n'] + more)[1..] == line[1..] + ['\n'] + more;
      RecordLengthOfLine(line[1..], more);
    }
  }

  /** Loading what the corrected save writes gives back the lines, for lines of printable characters. */
  lemma {:induction false} LoadSaveText(lines: seq<seq<char>>)
    requires forall i, j :: 0 <= i < |lines| && 0 <= j < |lines[i]| ==> Printable(lines[i][j])
    ensures Load(SaveText(lines)) == Loaded(lines, true)
  {
    if lines != [] {
      var text := SaveText(lines);
      var line := lines[0];
      assert text == line + ['\n'] + SaveText(lines[1..]);
      RecordLengthOfLine(line, SaveText(lines[1..]));
      assert text[|line|] == '\n';
      assert NextRecord(text, |line|) == |line| + 1;
      assert text[|line| + 1..] == SaveText(lines[1..]);
      assert text[..|line|] == line;
      KeptPrintable(line);
      LoadSaveText(lines[1..]);
      assert [line] + lines[1..] == lines;
    }
  }

  /** `read_in_file` as written munches a '\n' after any line end, not only after '\r'. */
  function LoadAsWritten(text: seq<char>): (r: Loaded)
    ensures |r.lines| <= |text|
    decreases |text|
  {
    if text == [] then Loaded([], true)
    else
      var k := RecordLength(text);
      if k == |text| then Loaded([], false)
      else
        var next := if k + 1 < |text| && text[k + 1] == '\n' then k + 2 else k + 1;
        var rest := LoadAsWritten(text[next..]);
        Loaded([Kept(text[..k])] + rest.lines, rest.complete)
  }

  /** As written, the blank line between two one-character lines disappears. */
  lemma BlankLineMunched(x: char, y: char)
    requires !Terminator(x) && !Terminator(y)
    ensures LoadAsWritten([x, '\n', '\n', y, '\n']) == Loaded([Kept([x]), Kept([y])], true)
  {
    var last := [y, '\n'];
    RecordLengthAt(last, 1);
    assert last[..1] == [y] && last[2..] == [];
    assert LoadAsWritten(last) == Loaded([Kept([y])], true);
    var t := [x, '\n', '\n', y, '\n'];
    RecordLengthAt(t, 1);
    assert t[..1] == [x] && t[3..] == last;
  }

  /** The corrected reading keeps the blank line between two one-character lines. */
  lemma BlankLineKept(x: char, y: char)
    requires !Terminator(x) && !Terminator(y)
    ensures Load([x, '\n', '\n', y, '\n']) == Loaded([Kept([x]), [], Kept([y])], true)
  {
    BlankFirstLoaded(y);
    LineFeedLoaded([x], ['\n', y, '\n']);
    assert [x] + ['\n'] + ['\n', y, '\n'] == [x, '\n', '\n', y, '\n'];
  }

  /** A blank line, then a one-character line: two lines, the first empty. */
  lemma BlankFirstLoaded(y: char)
    requires !Terminator(y)
    ensures Load(['\n', y, '\n']) == Loaded([[], Kept([y])], true)
  {
    OneLineLoaded(y);
    LineFeedLoaded([], [y, '\n']);
    assert [] + ['\n'] + [y, '\n'] == ['\n', y, '\n'] && Kept([]) == [];
  }

  /** A one-character line and its '\n': that one line. */
  lemma OneLineLoaded(y: char)
    requires !Terminator(y)
    ensures Load([y, '\n']) == Loaded([Kept([y])], true)
  {
    LineFeedLoaded([y], []);
    assert [y] + ['\n'] + [] == [y, '\n'];
  }

  /** A line of no terminator, then '\n': one line loaded, then what follows. */
  lemma LineFeedLoaded(line: seq<char>, rest: seq<char>)
    requires forall i :: 0 <= i < |line| ==> !Terminator(line[i])
    ensures Load(line + ['\n'] + rest) == Loaded([Kept(line)] + Load(rest).lines, Load(rest).complete)
  {
    var t := line + ['\n'] + rest;
    assert forall i :: 0 <= i < |line| ==> t[i] == line[i];
    RecordLengthAt(t, |line|);
    assert t[..|line|] == line && t[|line| + 1..] == rest;
  }

  /** What `save` writes as written: the lines' characters with no line ends. */
  function SaveTextAsWritten(lines: seq<seq<char>>): (r: seq<char>)
    ensures lines == [] ==> r == []
  {
    if lines == [] then [] else lines[0] + SaveTextAsWritten(lines[1..])
  }

  /** Saving ["ab", "cd"] as written writes "abcd", which loads as no line at all. */
  lemma SaveJoinsLines()
    ensures SaveTextAsWritten(["ab", "cd"]) == "abcd"
    ensures Load("abcd") == Loaded([], false)
  {
    assert ["ab", "cd"][1..] == ["cd"];
  }

  /** Saving the lines of `a + b` writes what saving `a`, then `b`, writes. */
  lemma {:induction false} SaveTextAppend(a: seq<seq<char>>, b: seq<seq<char>>)
    ensures SaveText(a + b) == SaveText(a) + SaveText(b)
  {
    if a == [] {
      assert a + b == b;
    } else {
      assert (a + b)[0] == a[0];
      assert (a + b)[1..] == a[1..] + b;
      SaveTextAppend(a[1..], b);
      calc {
        SaveText(a + b);
        a[0] + ['\n'] + SaveText(a[1..] + b);
        a[0] + ['\n'] + (SaveText(a[1..]) + SaveText(b));
        (a[0] + ['\n'] + SaveText(a[1..])) + SaveText(b);
      }
    }
  }

  /** The text of the first `i + 1` lines is that of the first `i`, then line `i` and its end. */
  lemma {:induction false} SaveTextPrefix(lines: seq<seq<char>>, i: nat)
    requires i < |lines|
    ensures SaveText(lines[..i + 1]) == SaveText(lines[..i]) + lines[i] + ['\n']
    ensures SaveText(lines) == SaveText(lines[..i + 1]) + SaveText(lines[i + 1..])
  {
    var one := [lines[i]];
    assert lines[..i + 1] == lines[..i] + one;
    SaveTextAppend(lines[..i], one);
    assert one[1..] == [];
    assert SaveText(one) == lines[i] + ['\n'];
    assert lines == lines[..i + 1] + lines[i + 1..];
    SaveTextAppend(lines[..i + 1], lines[i + 1..]);
  }

  /** Saving more lines writes at least as much. */
  lemma {:induction false} SaveTextGrows(lines: seq<seq<char>>, i: nat, j: nat)
    requires i <= j <= |lines|
    ensures |SaveText(lines[..i])| <= |SaveText(lines[..j])|
    decreases j - i
  {
    if i < j {
      SaveTextPrefix(lines, j - 1);
      SaveTextGrows(lines, i, j - 1);
    }
  }

  /**
   * How many lines, each with its '\n', the writer accepts whole when it takes
   * `room` characters: the longest prefix of the lines whose text fits.
   */
  function LinesWritten(lines: seq<seq<char>>, room: nat): (k: nat)
    ensures k <= |lines| && |SaveText(lines[..k])| <= room
    ensures k < |lines| ==> room < |SaveText(lines[..k + 1])|
  {
    if lines == [] then 0
    else if |lines[0]| + 1 <= room then
      var k := 1 + LinesWritten(lines[1..], room - |lines[0]| - 1);
      assert lines[..k] == [lines[0]] + lines[1..][..k - 1];
      assert k < |lines| ==> lines[..k + 1] == [lines[0]] + lines[1..][..k];
      k
    else
      assert lines[..1] == [lines[0]];
      0
  }

  /**
   * Writing line `i` after the `i` lines that fit: the text so far fits, the
   * line fits too exactly when it is not the last to fit, and a line that
   * does not fit cuts the whole text at the file's room.
   */
  lemma WriteFits(lines: seq<seq<char>>, room: nat, i: nat)
    requires i < |lines| && i <= LinesWritten(lines, room)
    ensures |SaveText(lines[..i])| <= room
    ensures SaveText(lines[..i + 1]) == SaveText(lines[..i]) + (lines[i] + ['\n'])
    ensures i < LinesWritten(lines, room) <==> |SaveText(lines[..i + 1])| <= room
    ensures room < |SaveText(lines[..i + 1])| ==>
      room < |SaveText(lines)| && SaveText(lines)[..room] == SaveText(lines[..i + 1])[..room]
  {
    var k := LinesWritten(lines, room);
    SaveTextGrows(lines, i, k);
    SaveTextPrefix(lines, i);
    Associate(SaveText(lines[..i]), lines[i], ['\n']);
    if i < k {
      SaveTextGrows(lines, i + 1, k);
    }
  }

  /** The line counter `save` prints: the 1-based number of each of the first `n` lines, at column 4 of the last row. */
  function Counter(rows: int, n: nat): (r: seq<Event>)
    ensures |r| == 2 * n
    ensures forall i :: 1 <= i <= n ==> r[2 * i - 2] == Cursor(rows, SAVE_COUNTER_COLUMN) && r[2 * i - 1] == Number(i)
  {
    if n == 0 then [] else Counter(rows, n - 1) + [Cursor(rows, SAVE_COUNTER_COLUMN), Number(n)]
  }

  /**
   * What the output file answers: its `open` and `trim` results, how many
   * characters it accepts, the error of a write beyond them, and its `close`
   * result.
   */
  datatype Writer = Writer(openResult: ErrorCode, trimResult: ErrorCode, room: nat, fullResult: ErrorCode,
                           closeResult: ErrorCode)

  /** The error `save` returns, the output file's text, the modified flag and what was printed. */
  datatype Saved = Saved(err: ErrorCode, text: seq<char>, modified: bool, events: seq<Event>)

  /**
   * `save`: nothing when the text is unmodified. Otherwise open at 0, trim,
   * write every line in order, close, and clear the modified flag; the first
   * failing step's error is returned, the flag stays set, and what was written
   * before a failing write remains in the file.
   */
  function SaveOf(lines: seq<seq<char>>, rows: int, text: seq<char>, modified: bool, f: Writer): (r: Saved)
    requires f.fullResult != NO_ERROR
    ensures !modified ==> r == Saved(NO_ERROR, text, false, [])
    ensures r.err == NO_ERROR <==> !r.modified
    ensures r.err == NO_ERROR ==> !modified || r.text == SaveText(lines)
    ensures modified && f.openResult == NO_ERROR && f.trimResult == NO_ERROR ==>
      r.text == SaveText(lines)[..if f.room < |SaveText(lines)| then f.room else |SaveText(lines)|]
    ensures modified && (f.openResult != NO_ERROR || f.trimResult != NO_ERROR) ==> r.text == text && r.modified
  {
    if !modified then Saved(NO_ERROR, text, false, [])
    else if f.openResult != NO_ERROR then Saved(f.openResult, text, true, [])
    else if f.trimResult != NO_ERROR then Saved(f.trimResult, text, true, [Cursor(rows, 1), Text(TRIMMING)])
    else
      var w := WriteOf(lines, rows, f);
      w.(events := [Cursor(rows, 1), Text(TRIMMING)] + w.events)
  }

  /**
   * The writing half of `save`, into an emptied file: the lines in order,
   * each number shown before its line, then the file closed; a write the file
   * cannot take whole ends it with the file's error.
   */
  function WriteOf(lines: seq<seq<char>>, rows: int, f: Writer): (r: Saved)
    requires f.fullResult != NO_ERROR
    ensures r.err == NO_ERROR <==> !r.modified
    ensures r.err == NO_ERROR ==> r.text == SaveText(lines)
    ensures r.text == SaveText(lines)[..if f.room < |SaveText(lines)| then f.room else |SaveText(lines)|]
  {
    var all := SaveText(lines);
    var k := LinesWritten(lines, f.room);
    var saving := [Cursor(rows, 1), Text(SAVING)];
    if k < |lines| then
      SaveTextGrows(lines, k + 1, |lines|);
      assert lines[..|lines|] == lines;
      Saved(f.fullResult, all[..f.room], true, saving + Counter(rows, k + 1))
    else
      assert lines[..k] == lines;
      Saved(f.closeResult, all, f.closeResult != NO_ERROR, saving + Counter(rows, k))
  }

  /** The two outcomes of `WriteOf`: a line the file cannot take, or every line written and the file closed. */
  lemma WriteOfCases(lines: seq<seq<char>>, rows: int, f: Writer)
    requires f.fullResult != NO_ERROR
    ensures LinesWritten(lines, f.room) < |lines| ==>
      f.room < |SaveText(lines)| &&
      WriteOf(lines, rows, f) == Saved(f.fullResult, SaveText(lines)[..f.room], true,
                                       [Cursor(rows, 1), Text(SAVING)] + Counter(rows, LinesWritten(lines, f.room) + 1))
    ensures LinesWritten(lines, f.room) == |lines| ==>
      WriteOf(lines, rows, f) == Saved(f.closeResult, SaveText(lines), f.closeResult != NO_ERROR,
                                       [Cursor(rows, 1), Text(SAVING)] + Counter(rows, |lines|))
  {
    if LinesWritten(lines, f.room) < |lines| {
      SaveTextGrows(lines, LinesWritten(lines, f.room) + 1, |lines|);
      assert lines[..|lines|] == lines;
    }
  }

  // ---------------------------------------------------------------------------
  // Calibration, commands and key dispatch

  /** The keys read up to and including the first enter key; once the keys run out a NUL is read, which is one. */
  function KeysToEnter(keys: seq<char>): (n: nat)
    ensures 1 <= n <= |keys| + 1
    ensures forall i :: 0 <= i < n - 1 ==> i < |keys| && NotEnterKey(keys[i])
    ensures n - 1 < |keys| ==> !NotEnterKey(keys[n - 1])
    decreases |keys|
  {
    if !NotEnterKey(NextKey(keys)) then 1 else 1 + KeysToEnter(Rest(keys))
  }

  /** A terminal size in characters. */
  datatype Size = Size(columns: int, rows: int)

  /** One calibration key: 'a'/'h' and 'w'/'k' shrink the frame while it is larger than 1, 'd'/'l' and 's'/'j' grow it. */
  function CalibrateKey(z: Size, c: char): (r: Size)
    ensures z.columns >= 1 && z.rows >= 1 ==> r.columns >= 1 && r.rows >= 1
    ensures r.columns - z.columns == (if c in "dl" then 1 else if c in "ah" && z.columns > 1 then -1 else 0)
    ensures r.rows - z.rows == (if c in "sj" then 1 else if c in "wk" && z.rows > 1 then -1 else 0)
  {
    if (c == 'a' || c == 'h') && 1 < z.columns then z.(columns := z.columns - 1)
    else if (c == 'w' || c == 'k') && 1 < z.rows then z.(rows := z.rows - 1)
    else if c == 's' || c == 'j' then z.(rows := z.rows + 1)
    else if c == 'd' || c == 'l' then z.(columns := z.columns + 1)
    else z
  }

  /** What one calibration key prints: the frame edited by one cell, or redrawn after losing a row. */
  function CalibrateKeyEvents(z: Size, c: char): seq<Event>
    requires z.columns >= 1
  {
    if (c == 'a' || c == 'h') && 1 < z.columns then [Text([BACKSPACE, ' ', BACKSPACE, BACKSPACE, CURSOR])]
    else if (c == 'w' || c == 'k') && 1 < z.rows then [Frame(z.columns, z.rows - 1)]
    else if c == 's' || c == 'j' then [Text([BACKSPACE, ' ', '\n'] + Spaces(z.columns - 1) + [CURSOR])]
    else if c == 'd' || c == 'l' then [Text([BACKSPACE, ' ', CURSOR])]
    else []
  }

  /**
   * The size calibration settles on from `z`: every key is applied, up to and
   * including the first enter key. It never drops below one row and column.
   */
  function Calibrated(keys: seq<char>, z: Size): (r: Size)
    requires z.columns >= 1 && z.rows >= 1
    ensures r.columns >= 1 && r.rows >= 1
    decreases |keys|
  {
    var c := NextKey(keys);
    var next := CalibrateKey(z, c);
    if NotEnterKey(c) then Calibrated(Rest(keys), next) else next
  }

  /** What calibration prints for its keys. */
  function CalibrationTrace(keys: seq<char>, z: Size): seq<Event>
    requires z.columns >= 1 && z.rows >= 1
    decreases |keys|
  {
    var c := NextKey(keys);
    var events := CalibrateKeyEvents(z, c);
    if NotEnterKey(c) then events + CalibrationTrace(Rest(keys), CalibrateKey(z, c)) else events
  }

  /** Calibration reads exactly the keys up to the first enter key, and only the frame keys change the size. */
  lemma {:induction false} CalibratedKeys(keys: seq<char>, z: Size)
    requires z.columns >= 1 && z.rows >= 1
    requires forall i :: 0 <= i < |keys| ==> keys[i] !in "ahwksjdl"
    ensures Calibrated(keys, z) == z
    decreases |keys|
  {
    if NotEnterKey(NextKey(keys)) {
      CalibratedKeys(Rest(keys), z);
    }
  }

  /** `clear_row(row)`: `columns + 1` blanks at the start of the row. */
  function ClearRowEvents(row: int, columns: nat): seq<Event>
  {
    [Cursor(row, 1), Text(Spaces(columns + 1))]
  }

  /** `clear()`: every row blanked, then the cursor home. */
  function ClearEvents(rows: nat, columns: nat): (r: seq<Event>)
    ensures |r| == 2 * rows + 1 && r[|r| - 1] == Cursor(1, 1)
  {
    Blanked(rows, columns) + [Cursor(1, 1)]
  }

  function Blanked(rows: nat, columns: nat): (r: seq<Event>)
    ensures |r| == 2 * rows
  {
    if rows == 0 then [] else Blanked(rows - 1, columns) + ClearRowEvents(rows, columns)
  }

  /** The characters of a command echoed as they are typed. */
  function Echoes(typed: seq<char>): (r: seq<Event>)
    ensures |r| == |typed| && forall i :: 0 <= i < |typed| ==> r[i] == Text([typed[i]])
  {
    if typed == [] then [] else Echoes(typed[..|typed| - 1]) + [Text([typed[|typed| - 1]])]
  }

  /** Echoing one more key. */
  lemma EchoesStep(typed: seq<char>)
    requires typed != []
    ensures Echoes(typed) == Echoes(typed[..|typed| - 1]) + [Text([typed[|typed| - 1]])]
  {
  }

  /** The outcome of a command: its error, whether the editor exits, and the state it leaves. */
  datatype Commanded = Commanded(err: ErrorCode, exit: bool, keys: seq<char>, text: seq<char>, modified: bool,
                                 events: seq<Event>)

  /**
   * `command`: the command line is read up to an enter key. A leading 'w'
   * saves (a failing save ends the command with its error); then 'q' exits
   * when the text is unmodified or the 'q' is followed by '!', and otherwise
   * complains and waits for an enter key. The bottom row is then repainted and
   * the cursor put back.
   */
  function CommandOf(s: Screen, v: View, keys: seq<char>, text: seq<char>, modified: bool, f: Writer): (r: Commanded)
    requires Fits(s, v) && f.fullResult != NO_ERROR
    ensures |r.keys| <= |keys|
    ensures r.err != NO_ERROR ==> !r.exit && r.err == SaveOf(s.lines, s.rows, text, modified, f).err
    ensures var cmd := Take(keys, KeysToEnter(keys));
      cmd[0] != SAVE_CHAR ==> r.text == text && r.modified == modified && r.err == NO_ERROR
    ensures var cmd := Take(keys, KeysToEnter(keys));
      var rest := if cmd[0] == SAVE_CHAR then cmd[1..] else cmd;
      r.exit <==> r.err == NO_ERROR && rest[0] == EXIT_CHAR && (!r.modified || rest[1] == EXIT_NO_SAVE)
  {
    var n := KeysToEnter(keys);
    var cmd := Take(keys, n);
    var prompt := PromptEvents(s, cmd);
    if cmd[0] == SAVE_CHAR then
      var sv := SaveOf(s.lines, s.rows, text, modified, f);
      if sv.err != NO_ERROR then Commanded(sv.err, false, Drop(keys, n), sv.text, sv.modified, prompt + sv.events)
      else Printed(prompt + sv.events, QuitOf(s, v, cmd[1..], Drop(keys, n), sv.text, sv.modified))
    else Printed(prompt, QuitOf(s, v, cmd, Drop(keys, n), text, modified))
  }

  /** The bottom row cleared, ':' and the command echoed without its enter key. */
  function PromptEvents(s: Screen, cmd: seq<char>): seq<Event>
    requires cmd != [] && 0 <= s.columns
  {
    ClearRowEvents(s.rows, s.columns) + [Cursor(s.rows, 1), Text([COMMAND_START])] + Echoes(cmd[..|cmd| - 1])
  }

  /** `c` with `events` printed before it. */
  function Printed(events: seq<Event>, c: Commanded): Commanded
  {
    c.(events := events + c.events)
  }

  /**
   * The rest of `command` after any 'w': the exit test on `rest`, the
   * complaint and wait when a modified text is not discarded with "q!", then
   * the bottom row repainted and the cursor put back.
   */
  function QuitOf(s: Screen, v: View, rest: seq<char>, keys: seq<char>, text: seq<char>, modified: bool): (r: Commanded)
    requires Fits(s, v) && 1 <= |rest| && (rest[0] == EXIT_CHAR ==> 2 <= |rest|)
    ensures r.err == NO_ERROR && r.text == text && r.modified == modified && |r.keys| <= |keys|
    ensures r.exit <==> rest[0] == EXIT_CHAR && (!modified || rest[1] == EXIT_NO_SAVE)
  {
    var exit := rest[0] == EXIT_CHAR && (!modified || rest[1] == EXIT_NO_SAVE);
    var refused := rest[0] == EXIT_CHAR && !exit;
    var complaint := if refused then ClearRowEvents(s.rows, s.columns) + [Cursor(s.rows, 1), Text(UNSAVED)] else [];
    Commanded(NO_ERROR, exit, Drop(keys, if refused then KeysToEnter(keys) else 0), text, modified,
              complaint + RowEvents(s.lines[v.firstLine + s.rows - 1], v.firstColumn, s.rows, s.columns) +
              [Cursor(v.termRow, v.termColumn)])
  }

  /** A command line typed as `typed` and ended by `e` is read whole, and reading stops right after `e`. */
  lemma {:induction false} TypedLine(typed: seq<char>, e: char, more: seq<char>)
    requires forall i :: 0 <= i < |typed| ==> NotEnterKey(typed[i])
    requires !NotEnterKey(e)
    ensures KeysToEnter(typed + [e] + more) == |typed| + 1
    ensures Take(typed + [e] + more, |typed| + 1) == typed + [e]
    ensures Drop(typed + [e] + more, |typed| + 1) == more
  {
    var keys := typed + [e] + more;
    if typed != [] {
      assert keys[1..] == typed[1..] + [e] + more;
      TypedLine(typed[1..], e, more);
    }
    assert keys[|typed| + 1..] == more;
    var t := Take(keys, |typed| + 1);
    assert forall i :: 0 <= i < |typed| + 1 ==> t[i] == (typed + [e])[i];
  }

  /** `save` succeeds exactly when the text is unmodified, or the file opens, trims, takes the whole text and closes. */
  lemma SaveSucceeds(lines: seq<seq<char>>, rows: int, text: seq<char>, modified: bool, f: Writer)
    requires f.fullResult != NO_ERROR
    ensures SaveOf(lines, rows, text, modified, f).err == NO_ERROR <==>
      !modified || (f.openResult == NO_ERROR && f.trimResult == NO_ERROR && |SaveText(lines)| <= f.room &&
                    f.closeResult == NO_ERROR)
  {
    WriteOfCases(lines, rows, f);
    var k := LinesWritten(lines, f.room);
    if k == |lines| {
      assert lines[..k] == lines;
    }
  }

  /** ":wq" with a file that takes the whole text: the text saved and the editor exits. */
  lemma WriteQuitExits(s: Screen, v: View, e: char, more: seq<char>, text: seq<char>, modified: bool, f: Writer)
    requires Fits(s, v) && f.fullResult != NO_ERROR && !NotEnterKey(e)
    requires f.openResult == NO_ERROR && f.trimResult == NO_ERROR && f.closeResult == NO_ERROR
    requires |SaveText(s.lines)| <= f.room
    ensures var r := CommandOf(s, v, [SAVE_CHAR, EXIT_CHAR, e] + more, text, modified, f);
      r.err == NO_ERROR && r.exit && !r.modified && r.keys == more && (modified ==> r.text == SaveText(s.lines))
  {
    TypedLine([SAVE_CHAR, EXIT_CHAR], e, more);
    SaveSucceeds(s.lines, s.rows, text, modified, f);
    assert [SAVE_CHAR, EXIT_CHAR] + [e] == [SAVE_CHAR, EXIT_CHAR, e];
  }

  /** ":q" on a modified text: refused, the text kept, and the keys up to the next enter key skipped. */
  lemma QuitRefused(s: Screen, v: View, e: char, more: seq<char>, text: seq<char>, f: Writer)
    requires Fits(s, v) && f.fullResult != NO_ERROR && !NotEnterKey(e)
    ensures var r := CommandOf(s, v, [EXIT_CHAR, e] + more, text, true, f);
      r.err == NO_ERROR && !r.exit && r.modified && r.text == text && r.keys == Drop(more, KeysToEnter(more))
  {
    TypedLine([EXIT_CHAR], e, more);
    assert [EXIT_CHAR] + [e] == [EXIT_CHAR, e];
  }

  /** ":q!" exits without saving, modified or not. */
  lemma QuitDiscards(s: Screen, v: View, e: char, more: seq<char>, text: seq<char>, modified: bool, f: Writer)
    requires Fits(s, v) && f.fullResult != NO_ERROR && !NotEnterKey(e)
    ensures var r := CommandOf(s, v, [EXIT_CHAR, EXIT_NO_SAVE, e] + more, text, modified, f);
      r.err == NO_ERROR && r.exit && r.modified == modified && r.text == text && r.keys == more
  {
    TypedLine([EXIT_CHAR, EXIT_NO_SAVE], e, more);
    assert [EXIT_CHAR, EXIT_NO_SAVE] + [e] == [EXIT_CHAR, EXIT_NO_SAVE, e];
  }

  /** The four directions of `move_selection`. */
  datatype Direction = Up | Down | Left | Right

  /** `move_selection`: one of the four moves. */
  function MoveSelectionOf(s: Screen, v: View, d: Direction): (r: Step)
    requires Fits(s, v)
    ensures Fits(s, r.view)
  {
    match d
    case Up => MoveUpOf(s, v)
    case Down => MoveDownOf(s, v)
    case Left => MoveLeftOf(s, v)
    case Right => MoveRightOf(s, v)
  }

  /** The keys of `run`: the motion keys, the four jumps, and ':' for a command. */
  datatype Key = Move(d: Direction) | FileStart | FileEnd | LineStart | LineEnd | Colon | Other

  /** The key map of `run`: a/h, s/j, d/l and w/k move; g, G, 0 and $ jump; ':' starts a command. */
  function Dispatch(c: char): Key
  {
    if c == 'a' || c == 'h' then Move(Left)
    else if c == 's' || c == 'j' then Move(Down)
    else if c == 'd' || c == 'l' then Move(Right)
    else if c == 'w' || c == 'k' then Move(Up)
    else if c == TO_FILE_START then FileStart
    else if c == TO_FILE_END then FileEnd
    else if c == TO_LINE_START then LineStart
    else if c == TO_LINE_END then LineEnd
    else if c == COMMAND_START then Colon
    else Other
  }

  /** Only ':' starts a command. */
  lemma DispatchColon(c: char)
    ensures Dispatch(c) == Colon <==> c == COMMAND_START
  {
  }

  /** Exactly the keys "ahsjdlwkgG0$:" do something in the key loop. */
  lemma DispatchKeys(c: char)
    ensures Dispatch(c) == Other <==> c !in "ahsjdlwkgG0$:"
  {
  }

  /** What a key other than ':' does to the view; every one of them keeps the editor invariant. */
  function KeyOf(s: Screen, v: View, k: Key): (r: Step)
    requires Fits(s, v) && k != Colon
    ensures Fits(s, r.view)
    ensures k == Other ==> r == Step(v, [])
  {
    match k
    case Move(d) => MoveSelectionOf(s, v, d)
    case FileStart => ToFileStartOf(s, v)
    case FileEnd => ToFileEndOf(s, v)
    case LineStart => ToLineStartOf(s, v)
    case LineEnd => ToLineEndOf(s, v)
    case Other => Step(v, [])
  }

  /** The line a column adjustment looks at: the one above or below the selected one. */
  function Neighbour(line: int, d: Direction): int
  {
    match d
    case Up => line - 1
    case Down => line + 1
    case _ => line
  }

  /** The line counter of `read_in_file`: "Line: " and the line count on row 2, after each of `n` lines added to `first`. */
  function Progress(first: nat, n: nat): (r: seq<Event>)
    ensures |r| == 3 * n
  {
    if n == 0 then [] else Progress(first, n - 1) + [Cursor(2, 1), Text(LINE_LABEL), Number(first + n)]
  }

  /** One more line counted. */
  lemma ProgressStep(first: nat, n: nat, count: int)
    requires count == first + n + 1
    ensures Progress(first, n + 1) == Progress(first, n) + [Cursor(2, 1), Text(LINE_LABEL), Number(count)]
  {
  }

  /**
   * Everything `calibrate` prints for `keys`: the cursor hidden, the
   * calibration string, the frame edits, the cursor shown, the cleared screen
   * and the size settled on as "columns x rows".
   */
  function CalibrationEvents(keys: seq<char>): seq<Event>
  {
    var z := Size(|CALIBRATION|, 1);
    [CursorShown(false), Cursor(1, 1), Text(CALIBRATION)] + CalibrationTrace(keys, z) + SizeShown(Calibrated(keys, z))
  }

  /** The end of `calibrate`: the cursor shown, the screen cleared and the size printed as "columns x rows ". */
  function SizeShown(z: Size): (r: seq<Event>)
    requires z.columns >= 1 && z.rows >= 1
    ensures |r| == 2 * z.rows + 6 && r[1 + 2 * z.rows] == Cursor(1, 1)
    ensures r[|r| - 4..] == [Number(z.columns), Text("x"), Number(z.rows), Text(" ")]
  {
    [CursorShown(true)] + ClearEvents(z.rows, z.columns) + [Number(z.columns), Text("x"), Number(z.rows), Text(" ")]
  }

  /** The outcome of the key loop of `run`: its error, whether a command exited, and the state it leaves. */
  datatype Session = Session(err: ErrorCode, exit: bool, view: View, keys: seq<char>, text: seq<char>, modified: bool,
                             events: seq<Event>)

  /** `r` with `events` printed before it. */
  function Prepend(events: seq<Event>, r: Session): Session
  {
    r.(events := events + r.events)
  }

  /**
   * The key loop of `run`: each key is dispatched, ':' runs a command, and
   * the loop ends when a command fails or exits, or when the keys run out.
   */
  function SessionOf(s: Screen, v: View, keys: seq<char>, text: seq<char>, modified: bool, f: Writer): (r: Session)
    requires Fits(s, v) && f.fullResult != NO_ERROR
    ensures Fits(s, r.view)
    ensures r.err != NO_ERROR || r.exit || r.keys == []
    ensures r.err != NO_ERROR ==> !r.exit
    decreases |keys|
  {
    if keys == [] then Session(NO_ERROR, false, v, keys, text, modified, [])
    else
      var k := Dispatch(keys[0]);
      if k == Colon then
        var c := CommandOf(s, v, keys[1..], text, modified, f);
        if c.err != NO_ERROR || c.exit then Session(c.err, c.exit, v, c.keys, c.text, c.modified, c.events)
        else Prepend(c.events, SessionOf(s, v, c.keys, c.text, c.modified, f))
      else
        var st := KeyOf(s, v, k);
        Prepend(st.events, SessionOf(s, st.view, keys[1..], text, modified, f))
  }

  /** ':' in the key loop runs a command; the loop goes on after it unless it failed or exited. */
  lemma SessionCommand(s: Screen, v: View, keys: seq<char>, text: seq<char>, modified: bool, f: Writer)
    requires Fits(s, v) && f.fullResult != NO_ERROR
    ensures var c := CommandOf(s, v, keys, text, modified, f);
      SessionOf(s, v, [COMMAND_START] + keys, text, modified, f) ==
        if c.err != NO_ERROR || c.exit then Session(c.err, c.exit, v, c.keys, c.text, c.modified, c.events)
        else Prepend(c.events, SessionOf(s, v, c.keys, c.text, c.modified, f))
  {
    var all := [COMMAND_START] + keys;
    assert all != [] && all[0] == COMMAND_START && all[1..] == keys;
    assert Dispatch(COMMAND_START) == Colon;
  }

  /** Events prepended in two steps are prepended together. */
  lemma PrependTwice(done: seq<Event>, more: seq<Event>, rest: Session)
    ensures Prepend(done, Prepend(more, rest)) == Prepend(done + more, rest)
  {
    Associate(done, more, rest.events);
  }

  /** Any other key in the key loop moves the view as `KeyOf` says, and the loop goes on. */
  lemma SessionKey(s: Screen, v: View, c: char, keys: seq<char>, text: seq<char>, modified: bool, f: Writer)
    requires Fits(s, v) && f.fullResult != NO_ERROR && Dispatch(c) != Colon
    ensures var st := KeyOf(s, v, Dispatch(c));
      SessionOf(s, v, [c] + keys, text, modified, f) == Prepend(st.events, SessionOf(s, st.view, keys, text, modified, f))
  {
    assert ([c] + keys)[0] == c && ([c] + keys)[1..] == keys;
  }

  // ---------------------------------------------------------------------------
  // The editor object and the objects it works with

  /** The printer the editor draws on: everything handed to it, in order. */
  class Output {
    var events: seq<Event>

    constructor ()
      ensures events == []
    {
      events := [];
    }

    method Put(e: seq<Event>)
      modifies this
      ensures events == old(events) + e
    {
      events := events + e;
    }
  }

  /** The scanner the editor reads keys from, with echo off: the keys not yet read. */
  class Keyboard {
    var keys: seq<char>

    constructor (keys: seq<char>)
      ensures this.keys == keys
    {
      this.keys := keys;
    }

    /** `get_char`: the next key, or a NUL once the keys run out. */
    method GetChar() returns (c: char)
      modifies this
      ensures c == NextKey(old(keys)) && keys == Rest(old(keys))
    {
      c := NextKey(keys);
      keys := Rest(keys);
    }
  }

  /**
   * A record read without meeting the failing read continues the load of
   * the readable text.
   */
  lemma LoadReadableNext(file: InFile, p: nat, done: seq<seq<char>>)
    requires p <= |file.Readable()| && p < |file.text| && Loads(file.Readable(), p, done)
    requires TerminatedAt(file.text, p) && file.FaultNotAfterCr()
    requires !(file.readFault != NO_ERROR && p <= file.faultAt <= p + |RecordAt(file.text, p)|)
    ensures AfterRecord(file.text, p) <= |file.Readable()|
    ensures Loads(file.Readable(), AfterRecord(file.text, p), done + [Kept(RecordAt(file.text, p))])
  {
    if file.ReadFails() {
      PrefixRecord(file.text, file.faultAt, p);
    }
    LoadNext(file.Readable(), p, done);
  }

  /** A read failing on the record at `p` ends the load of the readable text: all of it is loaded. */
  lemma LoadReadableFault(file: InFile, p: nat, done: seq<seq<char>>)
    requires p <= |file.Readable()| && p < |file.text| && Loads(file.Readable(), p, done)
    requires TerminatedAt(file.text, p) && file.FaultNotAfterCr()
    requires file.readFault != NO_ERROR && p <= file.faultAt <= p + |RecordAt(file.text, p)|
    ensures file.ReadFails() && Load(file.Readable()).lines == done
  {
    RecordStops(file.text, p);
    FaultStops(file.text, file.faultAt, p);
    assert done + [] == done;
  }

  /**
   * The file being edited, read through a `FatFileReader`: its text, its read
   * pointer, whether it is open, and what opening and closing it answer. Past
   * the end of the text the reader delivers the byte its sector buffer holds
   * there, `stale`, and advances as usual: `safe_get_char` has no end test.
   * Loading the sector under `faultAt` fails with `readFault` (a `readFault`
   * of `NO_ERROR` stands for a reader that never fails).
   */
  class InFile {
    const text: seq<char>
    const openResult: ErrorCode
    const stale: char
    const closeResult: ErrorCode
    const faultAt: int
    const readFault: ErrorCode
    var ptr: int
    var isOpen: bool

    constructor (text: seq<char>, openResult: ErrorCode, stale: char, closeResult: ErrorCode,
                 faultAt: int, readFault: ErrorCode)
      ensures this.text == text && this.openResult == openResult && this.stale == stale
      ensures this.closeResult == closeResult && this.faultAt == faultAt && this.readFault == readFault
      ensures ptr == 0 && !isOpen
    {
      this.text := text;
      this.openResult := openResult;
      this.stale := stale;
      this.closeResult := closeResult;
      this.faultAt := faultAt;
      this.readFault := readFault;
      ptr := 0;
      isOpen := false;
    }

    /** `open()`: the file opened with the pointer at its start, unless opening fails. */
    method Open() returns (err: ErrorCode)
      modifies this
      ensures err == openResult
      ensures err == NO_ERROR ==> isOpen && ptr == 0
      ensures err != NO_ERROR ==> isOpen == old(isOpen) && ptr == old(ptr)
    {
      err := openResult;
      if err == NO_ERROR {
        isOpen := true;
        ptr := 0;
      }
    }

    /** `eof`: the pointer is at the end of the file. */
    predicate Eof()
      reads this
    {
      ptr == |text|
    }

    /** The byte under the pointer `p`: the text's, or the stale buffer byte past its end. */
    function ByteAt(p: nat): char
      reads this
    {
      if p < |text| then text[p] else stale
    }

    /** Whether a read with the pointer at `p` fails. */
    predicate FaultsAt(p: int)
      reads this
    {
      readFault != NO_ERROR && p == faultAt
    }

    /** Whether loading the whole text meets the failing read: the fault lies inside the text. */
    predicate ReadFails()
    {
      readFault != NO_ERROR && 0 <= faultAt < |text|
    }

    /** What reading the text through to its end answers. */
    function ReadResult(): (err: ErrorCode)
      ensures err == NO_ERROR <==> !ReadFails()
    {
      if ReadFails() then readFault else NO_ERROR
    }

    /** The part of the text read before the failing read: all of it when no read fails. */
    function Readable(): (r: seq<char>)
      ensures r <= text && (|r| == |text| <==> !ReadFails())
    {
      if ReadFails() then text[..faultAt] else text
    }

    /**
     * The failing read does not come right after a '\r': the loader's peek for
     * the '\n' of a "\r\n" never meets it.
     */
    predicate FaultNotAfterCr()
    {
      readFault != NO_ERROR && 0 < faultAt <= |text| ==> text[faultAt - 1] != '\r'
    }

    /** `safe_get_char`: the byte under the pointer, which advances by one, or the load error with the pointer kept. */
    method SafeGetChar() returns (err: ErrorCode, c: char)
      requires 0 <= ptr
      modifies this`ptr
      ensures FaultsAt(old(ptr)) ==> err == readFault && err != NO_ERROR && ptr == old(ptr)
      ensures !FaultsAt(old(ptr)) ==> err == NO_ERROR && c == ByteAt(old(ptr)) && ptr == old(ptr) + 1
    {
      if FaultsAt(ptr) {
        return readFault, NUL;
      }
      err, c := NO_ERROR, ByteAt(ptr);
      ptr := ptr + 1;
    }

    /**
     * `peek`: `get_char`, which answers `(char) -1` on a failed read, then the
     * pointer stepped back by one whatever the read did.
     */
    method Peek() returns (c: char)
      requires 0 <= ptr
      modifies this`ptr
      ensures FaultsAt(old(ptr)) ==> c == Files.READ_FAILED && ptr == old(ptr) - 1
      ensures !FaultsAt(old(ptr)) ==> ptr == old(ptr) && c == ByteAt(ptr)
    {
      var err;
      err, c := SafeGetChar();
      if err != NO_ERROR {
        c := Files.READ_FAILED;
      }
      ptr := ptr - 1;
    }

    /** `close()`. */
    method Close() returns (err: ErrorCode)
      modifies this`isOpen
      ensures err == closeResult && !isOpen
    {
      isOpen := false;
      err := closeResult;
    }
  }

  /** The file saved to, written through a `FileWriter`: its text and what it answers. */
  class OutFile {
    var text: seq<char>
    const answers: Writer

    constructor (text: seq<char>, answers: Writer)
      ensures this.text == text && this.answers == answers
    {
      this.text := text;
      this.answers := answers;
    }

    /** `open(0, BEG)`. */
    method Open() returns (err: ErrorCode)
      ensures err == answers.openResult
    {
      err := answers.openResult;
    }

    /** `trim()` with the pointer at 0: the file is emptied, unless trimming fails. */
    method Trim() returns (err: ErrorCode)
      modifies this
      ensures err == answers.trimResult
      ensures text == if err == NO_ERROR then [] else old(text)
    {
      err := answers.trimResult;
      if err == NO_ERROR {
        text := [];
      }
    }

    /**
     * `safe_puts`: the characters of `s` in order, until the file accepts no
     * more; what was written before that remains.
     */
    method SafePuts(s: seq<char>) returns (err: ErrorCode)
      requires |text| <= answers.room
      modifies this
      ensures |old(text)| + |s| <= answers.room ==> err == NO_ERROR && text == old(text) + s
      ensures answers.room < |old(text)| + |s| ==> err == answers.fullResult && text == (old(text) + s)[..answers.room]
    {
      var i := 0;
      while i < |s|
        invariant 0 <= i <= |s| && text == old(text) + s[..i] && |text| <= answers.room
      {
        if |text| == answers.room {
          assert (old(text) + s)[..answers.room] == old(text) + s[..i];
          return answers.fullResult;
        }
        text := text + [s[i]];
        i := i + 1;
      }
      assert s[..i] == s;
      return NO_ERROR;
    }

    /** `close()`. */
    method Close() returns (err: ErrorCode)
      ensures err == answers.closeResult
    {
      err := answers.closeResult;
    }
  }

  /**
   * The editor: the loaded lines, the terminal size, the view and the
   * modified flag, as the fields `PWEdit` updates, and the four objects it
   * works with.
   */
  class Editor {
    var lines: seq<seq<char>>
    var columns: int
    var rows: int
    var termRow: int
    var termColumn: int
    var selectedLineNumber: int
    var selectedColumnInLine: int
    var desiredColumnInLine: int
    var firstLineDisplayed: int
    var firstColumnDisplayed: int
    var modified: bool
    const inFile: InFile
    const outFile: OutFile
    const scanner: Keyboard
    const printer: Output

    function Terminal(): Screen
      reads this`lines, this`rows, this`columns
    {
      Screen(lines, rows, columns)
    }

    function Coordinates(): View
      reads this`selectedLineNumber, this`selectedColumnInLine, this`desiredColumnInLine, this`firstLineDisplayed,
               this`firstColumnDisplayed, this`termRow, this`termColumn
    {
      View(selectedLineNumber, selectedColumnInLine, desiredColumnInLine,
           firstLineDisplayed, firstColumnDisplayed, termRow, termColumn)
    }

    /** The editor invariant: the view fits the lines and the terminal. */
    predicate Valid()
      reads this`lines, this`rows, this`columns, this`selectedLineNumber, this`selectedColumnInLine,
        this`desiredColumnInLine, this`firstLineDisplayed, this`firstColumnDisplayed, this`termRow, this`termColumn
    {
      Fits(Terminal(), Coordinates())
    }

    /** `PWEdit(inFile, outFile, scanner, printer)`: no columns, one row, unmodified. */
    constructor (inFile: InFile, outFile: OutFile, scanner: Keyboard, printer: Output)
      ensures this.inFile == inFile && this.outFile == outFile && this.scanner == scanner && this.printer == printer
      ensures lines == [] && columns == 0 && rows == 1 && !modified
    {
      this.inFile := inFile;
      this.outFile := outFile;
      this.scanner := scanner;
      this.printer := printer;
      lines := [];
      columns := 0;
      rows := 1;
      modified := false;
      termRow, termColumn := 0, 0;
      selectedLineNumber, selectedColumnInLine, desiredColumnInLine := 0, 0, 0;
      firstLineDisplayed, firstColumnDisplayed := 0, 0;
    }

    /** `print_line_at_row`: `columns` cells of `line` from column `first`, blank past its end. */
    method PrintLineAtRow(first: nat, line: seq<char>, row: int)
      requires 0 <= columns
      modifies printer
      ensures printer.events == old(printer.events) + RowEvents(line, first, row, columns)
    {
      MoveCursor(row, 1);
      var text: seq<char> := [];
      var column := 0;
      while column < columns && column + first < |line|
        invariant 0 <= column <= columns && (column == 0 || column + first <= |line|)
        invariant text == RowText(line, first, column)
      {
        text := text + [line[column + first]];
        column := column + 1;
      }
      while column < columns
        invariant 0 <= column <= columns
        invariant column < columns ==> column + first >= |line|
        invariant text == RowText(line, first, column)
      {
        text := text + [' '];
        column := column + 1;
      }
      printer.Put([Text(text)]);
    }

    /** `display_file_from`: rows 1 to `rows` show the lines from `startLine`, scrolled to `startColumn`. */
    method DisplayFileFrom(startLine: nat, startColumn: nat)
      requires 0 <= rows && 0 <= columns && startLine + rows <= |lines|
      modifies printer, this`firstLineDisplayed
      ensures printer.events == old(printer.events) + Window(lines, startLine, startColumn, rows, columns)
      ensures firstLineDisplayed == startLine
    {
      var row := 1;
      while row <= rows
        invariant 1 <= row <= rows + 1
        invariant printer.events == old(printer.events) + Window(lines, startLine, startColumn, row - 1, columns)
      {
        PrintLineAtRow(startColumn, lines[startLine + row - 1], row);
        Associate(old(printer.events), Window(lines, startLine, startColumn, row - 1, columns),
                  RowEvents(lines[startLine + row - 1], startColumn, row, columns));
        row := row + 1;
      }
      firstLineDisplayed := startLine;
    }

    /** `clear_row(row)`: `columns + 1` blanks from the start of the row. */
    method ClearRow(row: int)
      requires 0 <= columns
      modifies printer
      ensures printer.events == old(printer.events) + ClearRowEvents(row, columns)
    {
      MoveCursor(row, 1);
      var text: seq<char> := [];
      var column := 0;
      while column <= columns
        invariant 0 <= column <= columns + 1 && text == Spaces(column)
      {
        text := text + [' '];
        column := column + 1;
      }
      printer.Put([Text(text)]);
    }

    /** `clear()`: every row blanked, then the cursor home. */
    method Clear(writeSpaces: bool)
      requires writeSpaces ==> 0 <= rows && 0 <= columns
      modifies printer
      ensures writeSpaces ==> printer.events == old(printer.events) + ClearEvents(rows, columns)
      ensures !writeSpaces ==> printer.events == old(printer.events) + [Cursor(1, 1)]
    {
      if writeSpaces {
        var row := 1;
        while row <= rows
          invariant 1 <= row <= rows + 1
          invariant printer.events == old(printer.events) + Blanked(row - 1, columns)
        {
          ClearRow(row);
          Associate(old(printer.events), Blanked(row - 1, columns), ClearRowEvents(row, columns));
          row := row + 1;
        }
      }
      MoveCursor(1, 1);
    }

    /** `move_cursor(row, column)`: the escape sequence that places the cursor. */
    method MoveCursor(row: int, column: int)
      modifies printer
      ensures printer.events == old(printer.events) + [Cursor(row, column)]
    {
      printer.Put([Cursor(row, column)]);
    }

    /** `hide_cursor()`. */
    method HideCursor()
      modifies printer
      ensures printer.events == old(printer.events) + [CursorShown(false)]
    {
      printer.Put([CursorShown(false)]);
    }

    /** `show_cursor()`. */
    method ShowCursor()
      modifies printer
      ensures printer.events == old(printer.events) + [CursorShown(true)]
    {
      printer.Put([CursorShown(true)]);
    }

    /**
     * `trim_column_selection_to_fit(direction)`: up and down clamp the column to
     * the line above or below; left and right change nothing.
     */
    method TrimColumnSelectionToFit(direction: Direction) returns (redrawNecessary: bool)
      requires Valid()
      requires direction == Up ==> 0 < selectedLineNumber
      requires direction == Down ==> selectedLineNumber + 1 < |lines|
      modifies this`selectedColumnInLine, this`firstColumnDisplayed, this`termColumn
      ensures direction == Left || direction == Right ==> !redrawNecessary && Coordinates() == old(Coordinates())
      ensures direction == Up || direction == Down ==>
        Fit(Coordinates(), redrawNecessary) ==
        TrimColumnOf(old(Terminal()), old(Coordinates()), Neighbour(old(selectedLineNumber), direction))
    {
      var target;
      match direction {
        case Up => target := selectedLineNumber - 1;
        case Down => target := selectedLineNumber + 1;
        case _ => return false;
      }
      redrawNecessary := false;
      var lineLength := |lines[target]|;
      if lineLength <= selectedColumnInLine {
        selectedColumnInLine := LastColumn(lines[target]);
        if firstColumnDisplayed > selectedColumnInLine {
          firstColumnDisplayed := selectedColumnInLine;
          termColumn := 1;
          redrawNecessary := true;
        } else {
          termColumn := selectedColumnInLine - firstColumnDisplayed + 1;
        }
      }
    }

    /**
     * `expand_column_selection_to_desired(direction, previous)`: up and down move
     * the column back towards the desired one on the line above or below; left
     * and right change nothing.
     */
    method ExpandColumnSelectionToDesired(direction: Direction, previous: int) returns (redrawNecessary: bool)
      requires Shaped(Terminal()) && Columnar(Terminal(), Coordinates())
      requires direction == Up || direction == Down ==>
        var target := Neighbour(selectedLineNumber, direction);
        0 <= target < |lines| && selectedColumnInLine <= previous <= desiredColumnInLine &&
        selectedColumnInLine <= LastColumn(lines[target])
      modifies this`selectedColumnInLine, this`firstColumnDisplayed, this`termColumn
      ensures direction == Left || direction == Right ==> !redrawNecessary && Coordinates() == old(Coordinates())
      ensures direction == Up || direction == Down ==>
        Fit(Coordinates(), redrawNecessary) ==
        ExpandColumnOf(old(Terminal()), old(Coordinates()), Neighbour(old(selectedLineNumber), direction), previous)
    {
      var target;
      match direction {
        case Up => target := selectedLineNumber - 1;
        case Down => target := selectedLineNumber + 1;
        case _ => return false;
      }
      redrawNecessary := false;
      var lineLength := |lines[target]|;
      if LastColumn(lines[target]) > previous {
        if desiredColumnInLine != previous {
          if lineLength > desiredColumnInLine {
            selectedColumnInLine := desiredColumnInLine;
          } else {
            selectedColumnInLine := lineLength - 1;
          }
          if firstColumnDisplayed + columns <= selectedColumnInLine {
            firstColumnDisplayed := selectedColumnInLine - columns + 1;
            termColumn := columns;
            redrawNecessary := true;
          } else {
            termColumn := selectedColumnInLine - firstColumnDisplayed + 1;
          }
        }
      }
    }

    /** `move_selection(direction)`. */
    method MoveSelection(direction: Direction)
      requires Valid()
      modifies printer, this`selectedLineNumber, this`selectedColumnInLine, this`desiredColumnInLine,
        this`firstLineDisplayed, this`firstColumnDisplayed, this`termRow, this`termColumn
      ensures var r := MoveSelectionOf(old(Terminal()), old(Coordinates()), direction);
        Coordinates() == r.view && printer.events == old(printer.events) + r.events
    {
      match direction {
        case Down => MoveDown();
        case Up => MoveUp();
        case Right => MoveRight();
        case Left => MoveLeft();
      }
    }

    method MoveDown()
      requires Valid()
      modifies printer, this`selectedLineNumber, this`selectedColumnInLine, this`desiredColumnInLine,
        this`firstLineDisplayed, this`firstColumnDisplayed, this`termRow, this`termColumn
      ensures var r := MoveDownOf(old(Terminal()), old(Coordinates()));
        Coordinates() == r.view && printer.events == old(printer.events) + r.events
    {
      if |lines| - 1 <= selectedLineNumber {
        if LastColumn(lines[selectedLineNumber]) == selectedColumnInLine {
          printer.Put([Bell]);
        } else {
          ToFileEnd();
        }
      } else {
        MoveDownInside();
      }
    }

    /** `move_down` above the last line: fit the column to the next line, then step or scroll. */
    method MoveDownInside()
      requires Valid() && selectedLineNumber < |lines| - 1
      modifies printer, this`selectedLineNumber, this`selectedColumnInLine, this`desiredColumnInLine,
        this`firstLineDisplayed, this`firstColumnDisplayed, this`termRow, this`termColumn
      ensures var r := MoveDownOf(old(Terminal()), old(Coordinates()));
        Coordinates() == r.view && printer.events == old(printer.events) + r.events
    {
      var startingColumnSelection := selectedColumnInLine;
      var redrawNecessary := TrimColumnSelectionToFit(Down);
      var expanded := ExpandColumnSelectionToDesired(Down, startingColumnSelection);
      redrawNecessary := redrawNecessary || expanded;
      Descend(redrawNecessary);
    }

    /** The scroll-or-step half of `move_down`; see `DescendOf`. */
    method Descend(redrawNecessary: bool)
      requires Framed(Terminal(), Coordinates())
      modifies printer, this`selectedLineNumber, this`firstLineDisplayed, this`termRow
      ensures var r := DescendOf(old(Terminal()), old(Coordinates()), redrawNecessary);
        Coordinates() == r.view && printer.events == old(printer.events) + r.events
    {
      var lastLineDisplayed := firstLineDisplayed + rows;
      if PADDING > rows - termRow && |lines| > lastLineDisplayed {
        firstLineDisplayed := firstLineDisplayed + 1;
        DisplayFileFrom(firstLineDisplayed, firstColumnDisplayed);
        MoveCursor(termRow, termColumn);
        Associate(old(printer.events), Window(lines, firstLineDisplayed, firstColumnDisplayed, rows, columns),
                  [Cursor(termRow, termColumn)]);
      } else {
        ghost var shown: seq<Event> := [];
        if redrawNecessary {
          DisplayFileFrom(firstLineDisplayed, firstColumnDisplayed);
          shown := Window(lines, firstLineDisplayed, firstColumnDisplayed, rows, columns);
        }
        termRow := termRow + 1;
        MoveCursor(termRow, termColumn);
        Associate(old(printer.events), shown, [Cursor(termRow, termColumn)]);
      }
      selectedLineNumber := selectedLineNumber + 1;
    }

    method MoveUp()
      requires Valid()
      modifies printer, this`selectedLineNumber, this`selectedColumnInLine, this`desiredColumnInLine,
        this`firstLineDisplayed, this`firstColumnDisplayed, this`termRow, this`termColumn
      ensures var r := MoveUpOf(old(Terminal()), old(Coordinates()));
        Coordinates() == r.view && printer.events == old(printer.events) + r.events
    {
      if selectedLineNumber == 0 {
        if selectedColumnInLine != 0 {
          ToFileStart();
        } else {
          printer.Put([Bell]);
        }
      } else {
        MoveUpInside();
      }
    }

    /** `move_up` below the first line: fit the column to the previous line, then step or scroll. */
    method MoveUpInside()
      requires Valid() && selectedLineNumber != 0
      modifies printer, this`selectedLineNumber, this`selectedColumnInLine, this`desiredColumnInLine,
        this`firstLineDisplayed, this`firstColumnDisplayed, this`termRow, this`termColumn
      ensures var r := MoveUpOf(old(Terminal()), old(Coordinates()));
        Coordinates() == r.view && printer.events == old(printer.events) + r.events
    {
      var startingColumnSelection := selectedColumnInLine;
      var redrawNecessary := TrimColumnSelectionToFit(Up);
      var expanded := ExpandColumnSelectionToDesired(Up, startingColumnSelection);
      redrawNecessary := redrawNecessary || expanded;
      Ascend(redrawNecessary);
    }

    /** The scroll-or-step half of `move_up`; see `AscendOf`. */
    method Ascend(redrawNecessary: bool)
      requires Framed(Terminal(), Coordinates())
      modifies printer, this`selectedLineNumber, this`firstLineDisplayed, this`termRow
      ensures var r := AscendOf(old(Terminal()), old(Coordinates()), redrawNecessary);
        Coordinates() == r.view && printer.events == old(printer.events) + r.events
    {
      if PADDING >= termRow && firstLineDisplayed != 0 {
        firstLineDisplayed := firstLineDisplayed - 1;
        DisplayFileFrom(firstLineDisplayed, firstColumnDisplayed);
        MoveCursor(termRow, termColumn);
        Associate(old(printer.events), Window(lines, firstLineDisplayed, firstColumnDisplayed, rows, columns),
                  [Cursor(termRow, termColumn)]);
      } else {
        ghost var shown: seq<Event> := [];
        if redrawNecessary {
          DisplayFileFrom(firstLineDisplayed, firstColumnDisplayed);
          shown := Window(lines, firstLineDisplayed, firstColumnDisplayed, rows, columns);
        }
        termRow := termRow - 1;
        MoveCursor(termRow, termColumn);
        Associate(old(printer.events), shown, [Cursor(termRow, termColumn)]);
      }
      selectedLineNumber := selectedLineNumber - 1;
    }

    method MoveRight()
      requires Valid()
      modifies printer, this`selectedColumnInLine, this`desiredColumnInLine, this`firstLineDisplayed,
        this`firstColumnDisplayed, this`termColumn
      ensures var r := MoveRightOf(old(Terminal()), old(Coordinates()));
        Coordinates() == r.view && printer.events == old(printer.events) + r.events
    {
      ghost var r := MoveRightOf(Terminal(), Coordinates());
      if CursorAtEnd(Terminal(), Coordinates()) {
        printer.Put([Bell]);
      } else {
        var lastVisibleColumnOfLine := firstColumnDisplayed + columns;
        if PADDING > columns - termColumn && |lines[selectedLineNumber]| > lastVisibleColumnOfLine {
          firstColumnDisplayed := firstColumnDisplayed + 1;
          DisplayFileFrom(firstLineDisplayed, firstColumnDisplayed);
          MoveCursor(termRow, termColumn);
          Associate(old(printer.events), Window(lines, firstLineDisplayed, firstColumnDisplayed, rows, columns),
                    [Cursor(termRow, termColumn)]);
        } else {
          termColumn := termColumn + 1;
          MoveCursor(termRow, termColumn);
        }
        selectedColumnInLine := selectedColumnInLine + 1;
      }
      desiredColumnInLine := selectedColumnInLine;
      assert Coordinates() == r.view;
    }

    method MoveLeft()
      requires Valid()
      modifies printer, this`selectedColumnInLine, this`desiredColumnInLine, this`firstLineDisplayed,
        this`firstColumnDisplayed, this`termColumn
      ensures var r := MoveLeftOf(old(Terminal()), old(Coordinates()));
        Coordinates() == r.view && printer.events == old(printer.events) + r.events
    {
      ghost var r := MoveLeftOf(Terminal(), Coordinates());
      if selectedColumnInLine == 0 {
        printer.Put([Bell]);
      } else {
        if PADDING >= termColumn && firstColumnDisplayed != 0 {
          firstColumnDisplayed := firstColumnDisplayed - 1;
          DisplayFileFrom(firstLineDisplayed, firstColumnDisplayed);
          MoveCursor(termRow, termColumn);
          Associate(old(printer.events), Window(lines, firstLineDisplayed, firstColumnDisplayed, rows, columns),
                    [Cursor(termRow, termColumn)]);
        } else {
          termColumn := termColumn - 1;
          MoveCursor(termRow, termColumn);
        }
        selectedColumnInLine := selectedColumnInLine - 1;
      }
      desiredColumnInLine := selectedColumnInLine;
      assert Coordinates() == r.view;
    }

    method ToFileStart()
      requires Shaped(Terminal())
      modifies printer, this`selectedLineNumber, this`selectedColumnInLine, this`desiredColumnInLine,
        this`firstLineDisplayed, this`firstColumnDisplayed, this`termRow, this`termColumn
      ensures var r := ToFileStartOf(old(Terminal()), old(Coordinates()));
        Coordinates() == r.view && printer.events == old(printer.events) + r.events
    {
      ghost var r := ToFileStartOf(Terminal(), Coordinates());
      var redrawNecessary := firstLineDisplayed != 0 || firstColumnDisplayed != 0;
      firstLineDisplayed := 0;
      firstColumnDisplayed := 0;
      selectedLineNumber := 0;
      selectedColumnInLine := 0;
      desiredColumnInLine := 0;
      termRow := 1;
      termColumn := 1;
      ghost var shown: seq<Event> := [];
      if redrawNecessary {
        DisplayFileFrom(0, 0);
        shown := Window(lines, firstLineDisplayed, firstColumnDisplayed, rows, columns);
      }
      MoveCursor(termRow, termColumn);
      assert Coordinates() == r.view;
      assert r.events == shown + [Cursor(termRow, termColumn)];
      Associate(old(printer.events), shown, [Cursor(termRow, termColumn)]);
    }

    method ToFileEnd()
      requires Shaped(Terminal())
      modifies printer, this`selectedLineNumber, this`selectedColumnInLine, this`desiredColumnInLine,
        this`firstLineDisplayed, this`firstColumnDisplayed, this`termRow, this`termColumn
      ensures var r := ToFileEndOf(old(Terminal()), old(Coordinates()));
        Coordinates() == r.view && printer.events == old(printer.events) + r.events
    {
      ghost var r := ToFileEndOf(Terminal(), Coordinates());
      ToFileEndShape(Terminal(), Coordinates());
      var last := lines[|lines| - 1];
      var redrawNecessary := firstLineDisplayed != |lines| - rows || firstColumnDisplayed > LastColumn(last);
      SelectFileEnd();
      assert Coordinates() == r.view;
      ghost var shown: seq<Event> := [];
      if redrawNecessary {
        DisplayFileFrom(firstLineDisplayed, firstColumnDisplayed);
        shown := Window(lines, firstLineDisplayed, firstColumnDisplayed, rows, columns);
      }
      MoveCursor(termRow, termColumn);
      assert r.events == shown + [Cursor(termRow, termColumn)];
      Associate(old(printer.events), shown, [Cursor(termRow, termColumn)]);
    }

    /** The field updates of `to_file_end`: the last column of the last line, on the bottom row. */
    method SelectFileEnd()
      requires Shaped(Terminal())
      modifies this`selectedLineNumber, this`selectedColumnInLine, this`desiredColumnInLine,
        this`firstLineDisplayed, this`firstColumnDisplayed, this`termRow, this`termColumn
      ensures Coordinates() == ToFileEndOf(Terminal(), old(Coordinates())).view
    {
      var last := lines[|lines| - 1];
      firstLineDisplayed := |lines| - rows;
      var lastColumn;
      if |last| > columns {
        firstColumnDisplayed := |last| - columns;
        lastColumn := columns;
      } else {
        firstColumnDisplayed := 0;
        lastColumn := LastColumn(last) + 1;
      }
      selectedLineNumber := |lines| - 1;
      selectedColumnInLine := LastColumn(last);
      desiredColumnInLine := selectedColumnInLine;
      termRow := rows;
      termColumn := lastColumn;
    }


    method ToLineStart()
      requires Valid()
      modifies printer, this`selectedColumnInLine, this`desiredColumnInLine, this`firstLineDisplayed,
        this`firstColumnDisplayed, this`termColumn
      ensures var r := ToLineStartOf(old(Terminal()), old(Coordinates()));
        Coordinates() == r.view && printer.events == old(printer.events) + r.events
    {
      ghost var r := ToLineStartOf(Terminal(), Coordinates());
      if selectedColumnInLine != 0 {
        if firstColumnDisplayed != 0 {
          firstColumnDisplayed := 0;
          DisplayFileFrom(firstLineDisplayed, firstColumnDisplayed);
        }
        termColumn := 1;
        MoveCursor(termRow, termColumn);
        selectedColumnInLine := 0;
      }
      desiredColumnInLine := selectedColumnInLine;
      assert Coordinates() == r.view;
    }

    method ToLineEnd()
      requires Valid()
      modifies printer, this`selectedColumnInLine, this`desiredColumnInLine, this`firstLineDisplayed,
        this`firstColumnDisplayed, this`termColumn
      ensures var r := ToLineEndOf(old(Terminal()), old(Coordinates()));
        Coordinates() == r.view && printer.events == old(printer.events) + r.events
    {
      ghost var r := ToLineEndOf(Terminal(), Coordinates());
      if !CursorAtEnd(Terminal(), Coordinates()) {
        var lastColumnOfLineVisibleOnScreen := firstColumnDisplayed + columns;
        var lineLength := |lines[selectedLineNumber]|;
        if lineLength > lastColumnOfLineVisibleOnScreen {
          firstColumnDisplayed := lineLength - columns;
          termColumn := columns;
          DisplayFileFrom(firstLineDisplayed, firstColumnDisplayed);
          MoveCursor(termRow, termColumn);
          Associate(old(printer.events), Window(lines, firstLineDisplayed, firstColumnDisplayed, rows, columns),
                    [Cursor(termRow, termColumn)]);
        } else {
          termColumn := lineLength - firstColumnDisplayed;
          MoveCursor(termRow, termColumn);
        }
        selectedColumnInLine := lineLength - 1;
      }
      desiredColumnInLine := selectedColumnInLine;
      assert Coordinates() == r.view;
    }

    /** The size the frame has reached in `calibrate`. */
    function FrameSize(): Size
      reads this`columns, this`rows
    {
      Size(columns, rows)
    }

    /** `calibrate`: the frame grown and shrunk by the keys up to the first enter key, then the size shown. */
    method Calibrate()
      modifies printer, scanner, this`columns, this`rows
      ensures FrameSize() == Calibrated(old(scanner.keys), Size(|CALIBRATION|, 1))
      ensures scanner.keys == Drop(old(scanner.keys), KeysToEnter(old(scanner.keys)))
      ensures printer.events == old(printer.events) + CalibrationEvents(old(scanner.keys))
    {
      ShowCalibration();
      ReadFrame();
      ShowSize();
      ghost var opening: seq<Event> := [CursorShown(false), Cursor(1, 1), Text(CALIBRATION)];
      ghost var trace := CalibrationTrace(old(scanner.keys), Size(|CALIBRATION|, 1));
      ghost var shown := SizeShown(FrameSize());
      assert printer.events == old(printer.events) + opening + trace + shown;
      Associate(old(printer.events) + opening, trace, shown);
      Associate(old(printer.events), opening, trace + shown);
      Associate(opening, trace, shown);
    }

    /** The start of `calibrate`: the cursor hidden and the calibration string at the top left, one row high. */
    method ShowCalibration()
      modifies printer, this`columns, this`rows
      ensures FrameSize() == Size(|CALIBRATION|, 1)
      ensures printer.events == old(printer.events) + [CursorShown(false), Cursor(1, 1), Text(CALIBRATION)]
    {
      HideCursor();
      Clear(false);
      printer.Put([Text(CALIBRATION)]);
      columns := |CALIBRATION|;
      rows := 1;
    }

    /** The end of `calibrate`: `show_cursor()`, `clear()` and the size. */
    method ShowSize()
      requires 1 <= columns && 1 <= rows
      modifies printer
      ensures printer.events == old(printer.events) + SizeShown(FrameSize())
    {
      ShowCursor();
      Clear(true);
      printer.Put([Number(columns), Text("x"), Number(rows), Text(" ")]);
    }

    /** The key loop of `calibrate`: every key up to and including the first enter key edits the frame. */
    method ReadFrame()
      requires 1 <= columns && 1 <= rows
      modifies printer, scanner, this`columns, this`rows
      ensures FrameSize() == Calibrated(old(scanner.keys), old(FrameSize()))
      ensures scanner.keys == Drop(old(scanner.keys), KeysToEnter(old(scanner.keys)))
      ensures printer.events == old(printer.events) + CalibrationTrace(old(scanner.keys), old(FrameSize()))
    {
      ghost var pending := scanner.keys;
      ghost var z := FrameSize();
      ghost var before := printer.events;
      var input := CalibrateStep();
      while NotEnterKey(input)
        invariant 1 <= columns && 1 <= rows && 1 <= z.columns && 1 <= z.rows
        invariant input == NextKey(pending) && scanner.keys == Rest(pending)
        invariant FrameSize() == CalibrateKey(z, input)
        invariant printer.events == before + CalibrateKeyEvents(z, input)
        invariant Calibrated(old(scanner.keys), old(FrameSize())) == Calibrated(pending, z)
        invariant Drop(old(scanner.keys), KeysToEnter(old(scanner.keys))) == Drop(pending, KeysToEnter(pending))
        invariant old(printer.events) + CalibrationTrace(old(scanner.keys), old(FrameSize())) ==
          before + CalibrationTrace(pending, z)
        decreases |scanner.keys| + if NotEnterKey(input) then 1 else 0
      {
        DropRest(pending, KeysToEnter(scanner.keys));
        Associate(before, CalibrateKeyEvents(z, input), CalibrationTrace(scanner.keys, FrameSize()));
        pending, z, before := scanner.keys, FrameSize(), printer.events;
        input := CalibrateStep();
      }
      DropRest(pending, 0);
    }

    /** One key of `calibrate`: the frame edited as `CalibrateKey` says, and drawn as `CalibrateKeyEvents` says. */
    method CalibrateStep() returns (input: char)
      requires 1 <= columns && 1 <= rows
      modifies printer, scanner, this`columns, this`rows
      ensures input == NextKey(old(scanner.keys)) && scanner.keys == Rest(old(scanner.keys))
      ensures FrameSize() == CalibrateKey(old(FrameSize()), input)
      ensures printer.events == old(printer.events) + CalibrateKeyEvents(old(FrameSize()), input)
    {
      input := scanner.GetChar();
      if (input == 'a' || input == 'h') && 1 < columns {
        columns := columns - 1;
        printer.Put([Text([BACKSPACE, ' ', BACKSPACE, BACKSPACE, CURSOR])]);
      } else if (input == 'w' || input == 'k') && 1 < rows {
        rows := rows - 1;
        printer.Put([Frame(columns, rows)]);
      } else if input == 's' || input == 'j' {
        rows := rows + 1;
        printer.Put([Text([BACKSPACE, ' ', '\n'] + Spaces(columns - 1) + [CURSOR])]);
      } else if input == 'd' || input == 'l' {
        columns := columns + 1;
        printer.Put([Text([BACKSPACE, ' ', CURSOR])]);
      }
    }

    /**
     * `read_in_file`, with a '\n' munched only after a '\r': the records of
     * the text up to a failing read appended to the lines as `Load` says, with
     * the line count shown after each, and the read's error returned; the
     * line under way when the read fails is dropped. The file must end with a
     * line end, and the stale byte after it must not be '\n' (otherwise the
     * read pointer passes the end of the file and `eof` never holds again); a
     * failing read must not follow a '\r' (otherwise `peek` steps back before
     * the '\r' and the loop reads it again and again).
     */
    method ReadInFile() returns (err: ErrorCode)
      requires EndsLine(inFile.text) && inFile.stale != '\n' && inFile.FaultNotAfterCr()
      modifies inFile, printer, this`lines
      ensures err == if inFile.openResult != NO_ERROR then inFile.openResult else inFile.ReadResult()
      ensures inFile.openResult != NO_ERROR ==> lines == old(lines) && printer.events == old(printer.events)
      ensures inFile.openResult == NO_ERROR ==>
        lines == old(lines) + Load(inFile.Readable()).lines &&
        printer.events == old(printer.events) + Progress(|old(lines)|, |Load(inFile.Readable()).lines|)
    {
      err := inFile.Open();
      if err != NO_ERROR {
        return;
      }
      ghost var done: seq<seq<char>> := [];
      assert inFile.Readable()[0..] == inFile.Readable();
      while !inFile.Eof()
        invariant err == NO_ERROR && Reading(old(lines), old(printer.events), done)
        decreases |inFile.text| - inFile.ptr
      {
        err, done := LoadStep(old(lines), old(printer.events), done);
        if err != NO_ERROR {
          return;
        }
      }
      LoadDone(inFile.text, done);
    }

    /**
     * The state of `read_in_file` between lines: the file open, `done` loaded
     * from the readable text after the first `|lines0|` lines, and the count
     * shown for each.
     */
    ghost predicate Reading(lines0: seq<seq<char>>, events0: seq<Event>, done: seq<seq<char>>)
      reads this, inFile, printer
    {
      0 <= inFile.ptr <= |inFile.Readable()| && inFile.openResult == NO_ERROR &&
      EndsLine(inFile.text) && inFile.stale != '\n' && inFile.FaultNotAfterCr() &&
      lines == lines0 + done && Loads(inFile.Readable(), inFile.ptr, done) &&
      printer.events == events0 + Progress(|lines0|, |done|)
    }

    /**
     * One line of `read_in_file`, with the proof that the load goes on as
     * `Load` says, or, when its read fails, that the readable text is loaded.
     */
    method LoadStep(ghost lines0: seq<seq<char>>, ghost events0: seq<Event>, ghost done: seq<seq<char>>)
      returns (err: ErrorCode, ghost next: seq<seq<char>>)
      requires Reading(lines0, events0, done) && !inFile.Eof()
      modifies inFile`ptr, printer, this`lines
      ensures err == NO_ERROR ==> Reading(lines0, events0, next) && old(inFile.ptr) < inFile.ptr
      ensures err != NO_ERROR ==>
        err == inFile.ReadResult() && lines == lines0 + Load(inFile.Readable()).lines &&
        printer.events == events0 + Progress(|lines0|, |Load(inFile.Readable()).lines|)
    {
      ghost var p, text := inFile.ptr, inFile.text;
      EndsLineTerminates(text, p);
      err := LoadLine();
      if err != NO_ERROR {
        LoadReadableFault(inFile, p, done);
        next := done;
        return;
      }
      LoadReadableNext(inFile, p, done);
      ghost var line := Kept(RecordAt(text, p));
      Associate(lines0, done, [line]);
      ProgressStep(|lines0|, |done|, |lines|);
      Associate(events0, Progress(|lines0|, |done|), [Cursor(2, 1), Text(LINE_LABEL), Number(|lines|)]);
      next := done + [line];
    }

    /**
     * One pass of the loop of `read_in_file`: a record read, added and
     * counted, or the failing read's error with nothing added or shown.
     */
    method LoadLine() returns (err: ErrorCode)
      requires 0 <= inFile.ptr <= |inFile.text| && TerminatedAt(inFile.text, inFile.ptr)
      requires inFile.stale != '\n' && inFile.FaultNotAfterCr()
      modifies inFile`ptr, printer, this`lines
      ensures var start := old(inFile.ptr);
        if inFile.readFault != NO_ERROR && start <= inFile.faultAt <= start + |RecordAt(inFile.text, start)| then
          err == inFile.readFault && lines == old(lines) && printer.events == old(printer.events)
        else
          err == NO_ERROR && lines == old(lines) + [Kept(RecordAt(inFile.text, start))] &&
          inFile.ptr == AfterRecord(inFile.text, start) &&
          printer.events == old(printer.events) + [Cursor(2, 1), Text(LINE_LABEL), Number(|lines|)]
    {
      var line;
      err, line := ReadRecord();
      if err != NO_ERROR {
        return;
      }
      lines := lines + [line];
      ShowLineCount();
    }

    /** The counter of `read_in_file`: "Line: " and the number of lines, on row 2. */
    method ShowLineCount()
      modifies printer
      ensures printer.events == old(printer.events) + [Cursor(2, 1), Text(LINE_LABEL), Number(|lines|)]
    {
      MoveCursor(2, 1);
      printer.Put([Text(LINE_LABEL), Number(|lines|)]);
    }

    /**
     * One pass of the loop of `read_in_file`: the record under the read pointer
     * and its line end, and the '\n' of a "\r\n"; or the error of a read that
     * fails on the record or its line end.
     */
    method ReadRecord() returns (err: ErrorCode, line: seq<char>)
      requires 0 <= inFile.ptr <= |inFile.text| && TerminatedAt(inFile.text, inFile.ptr)
      requires inFile.stale != '\n' && inFile.FaultNotAfterCr()
      modifies inFile`ptr
      ensures var start := old(inFile.ptr);
        if inFile.readFault != NO_ERROR && start <= inFile.faultAt <= start + |RecordAt(inFile.text, start)| then
          err == inFile.readFault
        else
          err == NO_ERROR && line == Kept(RecordAt(inFile.text, start)) &&
          inFile.ptr == AfterRecord(inFile.text, start)
    {
      ghost var start, text := inFile.ptr, inFile.text;
      ghost var end := start + |RecordAt(text, start)|;
      var c;
      err, line, c := ReadLine();
      if err != NO_ERROR {
        return;
      }
      assert !(inFile.readFault != NO_ERROR && start <= inFile.faultAt <= end);
      AfterRecordAt(text, start);
      if c == '\r' {
        assert !inFile.FaultsAt(end + 1);
        var next := inFile.Peek();
        if next == '\n' {
          err, c := inFile.SafeGetChar();
        }
      }
    }

    /**
     * The inner loop of `read_in_file`: characters up to and including a '\r'
     * or '\n', keeping the printable ones, or the error of the first read that
     * fails, with the pointer left on it.
     */
    method ReadLine() returns (err: ErrorCode, line: seq<char>, c: char)
      requires 0 <= inFile.ptr <= |inFile.text| && TerminatedAt(inFile.text, inFile.ptr)
      modifies inFile`ptr
      ensures var start := old(inFile.ptr);
        var k := |RecordAt(inFile.text, start)|;
        if inFile.readFault != NO_ERROR && start <= inFile.faultAt <= start + k then
          err == inFile.readFault && inFile.ptr == inFile.faultAt
        else
          err == NO_ERROR && line == Kept(RecordAt(inFile.text, start)) &&
          c == inFile.text[start + k] && inFile.ptr == start + k + 1
    {
      ghost var start := inFile.ptr;
      ghost var end := start + |RecordAt(inFile.text, start)|;
      RecordStops(inFile.text, start);
      err, line, c := NO_ERROR, [], NUL;
      while !Terminator(c)
        invariant err == NO_ERROR && start <= inFile.ptr <= end + 1 && end < |inFile.text|
        invariant !(inFile.readFault != NO_ERROR && start <= inFile.faultAt < inFile.ptr)
        invariant line == Kept(inFile.text[start..inFile.ptr])
        invariant if inFile.ptr == start then c == NUL else c == inFile.text[inFile.ptr - 1]
        invariant Terminator(c) ==> inFile.ptr == end + 1
        decreases end + 1 - inFile.ptr
      {
        err, line, c := ReadChar(start, line);
        if err != NO_ERROR {
          return;
        }
      }
      RecordEnds(inFile.text, start, inFile.ptr);
    }

    /** One character of the inner loop of `read_in_file`: read, and kept if printable. */
    method ReadChar(ghost start: nat, line: seq<char>) returns (err: ErrorCode, line': seq<char>, c: char)
      requires start <= inFile.ptr < |inFile.text| && line == Kept(inFile.text[start..inFile.ptr])
      modifies inFile`ptr
      ensures inFile.FaultsAt(old(inFile.ptr)) ==> err == inFile.readFault && err != NO_ERROR && inFile.ptr == old(inFile.ptr)
      ensures !inFile.FaultsAt(old(inFile.ptr)) ==>
        err == NO_ERROR && inFile.ptr == old(inFile.ptr) + 1 && c == inFile.text[old(inFile.ptr)] &&
        line' == Kept(inFile.text[start..inFile.ptr])
    {
      line' := line;
      err, c := inFile.SafeGetChar();
      if err != NO_ERROR {
        return;
      }
      KeptStep(inFile.text, start, inFile.ptr - 1);
      if Printable(c) {
        line' := line' + [c];
      }
    }

    /**
     * `save`, each line written with its '\n': nothing when unmodified;
     * otherwise the output file rewritten from the start and the modified flag
     * cleared, unless a step fails, as `SaveOf` says.
     */
    method Save() returns (err: ErrorCode)
      requires outFile.answers.fullResult != NO_ERROR
      modifies outFile, printer, this`modified
      ensures err == SaveOf(lines, rows, old(outFile.text), old(modified), outFile.answers).err
      ensures outFile.text == SaveOf(lines, rows, old(outFile.text), old(modified), outFile.answers).text
      ensures modified == SaveOf(lines, rows, old(outFile.text), old(modified), outFile.answers).modified
      ensures printer.events ==
        old(printer.events) + SaveOf(lines, rows, old(outFile.text), old(modified), outFile.answers).events
    {
      if !modified {
        return NO_ERROR;
      }
      err := outFile.Open();
      if err != NO_ERROR {
        return;
      }
      err := TrimOutput();
      if err != NO_ERROR {
        return;
      }
      ghost var trimmed := printer.events;
      err := WriteAll();
      WriteOfCases(lines, rows, outFile.answers);
      ghost var written := WriteOf(lines, rows, outFile.answers);
      ghost var k := LinesWritten(lines, outFile.answers.room);
      Associate(trimmed, [Cursor(rows, 1), Text(SAVING)], Counter(rows, if k < |lines| then k + 1 else |lines|));
      Associate(old(printer.events), [Cursor(rows, 1), Text(TRIMMING)], written.events);
    }

    /** The writing half of `save`: the two outcomes of `WriteOfCases`. */
    method WriteAll() returns (err: ErrorCode)
      requires outFile.text == [] && outFile.answers.fullResult != NO_ERROR
      modifies outFile, printer, this`modified
      ensures LinesWritten(lines, outFile.answers.room) < |lines| ==>
        err == outFile.answers.fullResult && outFile.answers.room < |SaveText(lines)| &&
        outFile.text == SaveText(lines)[..outFile.answers.room] && modified == old(modified) &&
        printer.events == old(printer.events) + [Cursor(rows, 1), Text(SAVING)] +
          Counter(rows, LinesWritten(lines, outFile.answers.room) + 1)
      ensures LinesWritten(lines, outFile.answers.room) == |lines| ==>
        err == outFile.answers.closeResult && outFile.text == SaveText(lines) &&
        modified == (err != NO_ERROR && old(modified)) &&
        printer.events == old(printer.events) + [Cursor(rows, 1), Text(SAVING)] + Counter(rows, |lines|)
    {
      MoveCursor(rows, 1);
      printer.Put([Text(SAVING)]);
      ghost var shown := printer.events;
      assert shown == old(printer.events) + [Cursor(rows, 1), Text(SAVING)];
      err := WriteLines();
      ghost var k := LinesWritten(lines, outFile.answers.room);
      assert k < |lines| ==> printer.events == shown + Counter(rows, k + 1);
      assert k == |lines| ==> printer.events == shown + Counter(rows, |lines|);
      if err == NO_ERROR {
        err := outFile.Close();
        if err == NO_ERROR {
          modified := false;
        }
      }
    }

    /** The trimming step of `save`: the message on the bottom row, then the file emptied unless that fails. */
    method TrimOutput() returns (err: ErrorCode)
      modifies outFile, printer
      ensures err == outFile.answers.trimResult
      ensures outFile.text == if err == NO_ERROR then [] else old(outFile.text)
      ensures printer.events == old(printer.events) + [Cursor(rows, 1), Text(TRIMMING)]
    {
      MoveCursor(rows, 1);
      printer.Put([Text(TRIMMING)]);
      err := outFile.Trim();
    }

    /**
     * The loop of `save`: each line written after its number is shown, until
     * the file takes no more. `LinesWritten` lines go in whole; a line that
     * does not fit is written as far as the file takes it.
     */
    method WriteLines() returns (err: ErrorCode)
      requires outFile.text == [] && outFile.answers.fullResult != NO_ERROR
      modifies outFile, printer
      ensures Written(old(printer.events), err)
    {
      var i := 0;
      while i < |lines|
        invariant Writing(old(printer.events), i)
      {
        err := WriteLine(old(printer.events), i);
        if err != NO_ERROR {
          return;
        }
        i := i + 1;
      }
      assert lines[..i] == lines;
      err := NO_ERROR;
    }

    /**
     * The state after the loop of `save`: either a line did not fit, and the
     * file holds what fitted of the text, or every line is written.
     */
    ghost predicate Written(events0: seq<Event>, err: ErrorCode)
      reads this, outFile, printer
    {
      (LinesWritten(lines, outFile.answers.room) < |lines| ==>
        err == outFile.answers.fullResult && outFile.answers.room < |SaveText(lines)| &&
        outFile.text == SaveText(lines)[..outFile.answers.room] &&
        printer.events == events0 + Counter(rows, LinesWritten(lines, outFile.answers.room) + 1)) &&
      (LinesWritten(lines, outFile.answers.room) == |lines| ==>
        err == NO_ERROR && outFile.text == SaveText(lines) && printer.events == events0 + Counter(rows, |lines|))
    }

    /** The state of `save` after `i` lines: all of them fit and are written, and their numbers shown. */
    ghost predicate Writing(events0: seq<Event>, i: int)
      reads this, outFile, printer
    {
      0 <= i <= LinesWritten(lines, outFile.answers.room) && outFile.text == SaveText(lines[..i]) &&
      printer.events == events0 + Counter(rows, i) && outFile.answers.fullResult != NO_ERROR
    }

    /** One pass of the loop of `save`: line `i`'s number shown, then the line and its '\n' written. */
    method WriteLine(ghost events0: seq<Event>, i: int) returns (err: ErrorCode)
      requires i < |lines| && Writing(events0, i)
      modifies outFile, printer
      ensures err == NO_ERROR ==> Writing(events0, i + 1)
      ensures err != NO_ERROR ==> Written(events0, err)
    {
      MoveCursor(rows, SAVE_COUNTER_COLUMN);
      printer.Put([Number(i + 1)]);
      Associate(events0, Counter(rows, i), [Cursor(rows, SAVE_COUNTER_COLUMN), Number(i + 1)]);
      WriteFits(lines, outFile.answers.room, i);
      err := outFile.SafePuts(lines[i] + ['\n']);
    }

    /**
     * `read_command_input`: keys read up to and including the first enter key
     * (a NUL once the keys run out), each key before it echoed.
     */
    method ReadCommandInput() returns (cmd: seq<char>)
      modifies scanner, printer
      ensures cmd == Take(old(scanner.keys), KeysToEnter(old(scanner.keys)))
      ensures scanner.keys == Drop(old(scanner.keys), KeysToEnter(old(scanner.keys)))
      ensures printer.events == old(printer.events) + Echoes(cmd[..|cmd| - 1])
    {
      ghost var keys0 := scanner.keys;
      ghost var pending := scanner.keys;
      var input := scanner.GetChar();
      cmd := [input];
      if NotEnterKey(input) {
        printer.Put([Text([input])]);
      }
      assert Take(keys0, 1) == cmd;
      while NotEnterKey(input)
        invariant Typing(keys0, old(printer.events), pending, cmd, input)
        decreases |scanner.keys| + if NotEnterKey(input) then 1 else 0
      {
        cmd, input, pending := TypeKey(keys0, old(printer.events), pending, cmd, input);
      }
      ghost var typed := |cmd| - 1;
      DropStep(keys0, typed, |cmd|);
    }

    /** The state of `read_command_input` after reading `cmd`, the last key read being `input`, from `pending`. */
    ghost predicate Typing(keys0: seq<char>, events0: seq<Event>, pending: seq<char>, cmd: seq<char>, input: char)
      reads scanner, printer
    {
      1 <= |cmd| && cmd == Take(keys0, |cmd|) &&
      pending == Drop(keys0, |cmd| - 1) && input == NextKey(pending) && scanner.keys == Rest(pending) &&
      KeysToEnter(keys0) == |cmd| - 1 + KeysToEnter(pending) &&
      printer.events == events0 + Echoes(cmd[..|cmd| - 1]) + if NotEnterKey(input) then [Text([input])] else []
    }

    /** One more key of `read_command_input`, echoed unless it is an enter key. */
    method TypeKey(ghost keys0: seq<char>, ghost events0: seq<Event>, ghost pending: seq<char>, cmd: seq<char>, input: char)
      returns (cmd': seq<char>, input': char, ghost pending': seq<char>)
      requires Typing(keys0, events0, pending, cmd, input) && NotEnterKey(input)
      modifies scanner, printer
      ensures Typing(keys0, events0, pending', cmd', input')
      ensures |scanner.keys| + (if NotEnterKey(input') then 1 else 0) < |old(scanner.keys)| + 1
    {
      EchoesStep(cmd);
      Associate(events0, Echoes(cmd[..|cmd| - 1]), [Text([input])]);
      ghost var typed := |cmd| - 1;
      ghost var next := |cmd| + 1;
      DropStep(keys0, typed, |cmd|);
      TakeSnoc(keys0, |cmd|, next);
      pending' := scanner.keys;
      input' := scanner.GetChar();
      cmd' := cmd + [input'];
      assert cmd'[..|cmd'| - 1] == cmd;
      if NotEnterKey(input') {
        printer.Put([Text([input'])]);
      }
    }

    /** The `do get_char() while not_enter_key` wait: every key up to and including the first enter key skipped. */
    method SkipToEnter()
      modifies scanner
      ensures scanner.keys == Drop(old(scanner.keys), KeysToEnter(old(scanner.keys)))
    {
      ghost var pending := scanner.keys;
      var c := scanner.GetChar();
      while NotEnterKey(c)
        invariant c == NextKey(pending) && scanner.keys == Rest(pending)
        invariant Drop(old(scanner.keys), KeysToEnter(old(scanner.keys))) == Drop(pending, KeysToEnter(pending))
        decreases |scanner.keys| + if NotEnterKey(c) then 1 else 0
      {
        DropRest(pending, KeysToEnter(scanner.keys));
        pending := scanner.keys;
        c := scanner.GetChar();
      }
      DropRest(pending, 0);
    }

    /**
     * The 'q' part of `command`, given the command after any 'w': the editor
     * exits when the text is unmodified or the 'q' is followed by '!';
     * otherwise it complains on the bottom row and waits for an enter key.
     */
    method QuitCommand(rest: seq<char>) returns (exit: bool)
      requires 0 <= columns && 1 <= |rest| && (rest[0] == EXIT_CHAR ==> 2 <= |rest|)
      modifies printer, scanner
      ensures exit <==> rest[0] == EXIT_CHAR && (!modified || rest[1] == EXIT_NO_SAVE)
      ensures rest[0] == EXIT_CHAR && !exit ==>
        scanner.keys == Drop(old(scanner.keys), KeysToEnter(old(scanner.keys))) &&
        printer.events == old(printer.events) + ClearRowEvents(rows, columns) + [Cursor(rows, 1), Text(UNSAVED)]
      ensures rest[0] != EXIT_CHAR || exit ==>
        scanner.keys == old(scanner.keys) && printer.events == old(printer.events)
    {
      exit := false;
      if rest[0] == EXIT_CHAR {
        if modified {
          if rest[1] == EXIT_NO_SAVE {
            exit := true;
          } else {
            ClearRow(rows);
            MoveCursor(rows, 1);
            printer.Put([Text(UNSAVED)]);
            SkipToEnter();
          }
        } else {
          exit := true;
        }
      }
    }

    /** `rewrite_last_line`: the line on the bottom row of the window printed again. */
    method RewriteLastLine()
      requires Valid()
      modifies printer
      ensures printer.events ==
        old(printer.events) + RowEvents(lines[firstLineDisplayed + rows - 1], firstColumnDisplayed, rows, columns)
    {
      // `line` is the index of the line the list iterator points at.
      var line := selectedLineNumber;
      var lastLineNumberDisplayed := firstLineDisplayed + rows - 1;
      var i := selectedLineNumber;
      while i < lastLineNumberDisplayed
        invariant selectedLineNumber <= i <= lastLineNumberDisplayed
        invariant line == i
      {
        line := line + 1;
        i := i + 1;
      }
      PrintLineAtRow(firstColumnDisplayed, lines[line], rows);
    }

    /**
     * `command`: the command line read on the bottom row, then saved and/or
     * exited as `CommandOf` says; a failing save ends it with its error.
     */
    method Command() returns (err: ErrorCode, exit: bool)
      requires Valid() && outFile.answers.fullResult != NO_ERROR
      modifies printer, scanner, outFile, this`modified
      ensures var r := CommandOf(Terminal(), Coordinates(), old(scanner.keys), old(outFile.text), old(modified), outFile.answers);
        err == r.err && exit == r.exit && scanner.keys == r.keys && outFile.text == r.text && modified == r.modified &&
        printer.events == old(printer.events) + r.events
      ensures Valid() && Terminal() == old(Terminal()) && Coordinates() == old(Coordinates())
    {
      ghost var s, v := Terminal(), Coordinates();
      ghost var r := CommandOf(s, v, scanner.keys, outFile.text, modified, outFile.answers);
      ghost var sv := SaveOf(lines, rows, outFile.text, modified, outFile.answers);
      ghost var after := Drop(scanner.keys, KeysToEnter(scanner.keys));
      var cmd := Prompt();
      ghost var prompt := PromptEvents(s, cmd);
      var save := cmd[0] == SAVE_CHAR;
      if save {
        err := Save();
        if err != NO_ERROR {
          exit := false;
          assert r == Commanded(sv.err, false, after, sv.text, sv.modified, prompt + sv.events);
          Associate(old(printer.events), prompt, sv.events);
          return;
        }
        assert r == Printed(prompt + sv.events, QuitOf(s, v, cmd[1..], after, sv.text, sv.modified));
        Associate(old(printer.events), prompt, sv.events);
        prompt := prompt + sv.events;
      } else {
        assert r == Printed(prompt, QuitOf(s, v, cmd, after, outFile.text, modified));
      }
      err := NO_ERROR;
      var rest := if save then cmd[1..] else cmd;
      exit := FinishCommand(rest);
      Associate(old(printer.events), prompt, QuitOf(s, v, rest, after, outFile.text, modified).events);
    }

    /** The start of `command`: ':' on the cleared bottom row, then the command line read. */
    method Prompt() returns (cmd: seq<char>)
      requires 0 <= columns
      modifies printer, scanner
      ensures cmd == Take(old(scanner.keys), KeysToEnter(old(scanner.keys)))
      ensures scanner.keys == Drop(old(scanner.keys), KeysToEnter(old(scanner.keys)))
      ensures printer.events == old(printer.events) + PromptEvents(Terminal(), cmd)
    {
      ClearRow(rows);
      MoveCursor(rows, 1);
      printer.Put([Text([COMMAND_START])]);
      ghost var shown := ClearRowEvents(rows, columns) + [Cursor(rows, 1), Text([COMMAND_START])];
      assert printer.events == old(printer.events) + shown;
      cmd := ReadCommandInput();
      Associate(old(printer.events), shown, Echoes(cmd[..|cmd| - 1]));
    }

    /** The end of `command`, as `QuitOf` says. */
    method FinishCommand(rest: seq<char>) returns (exit: bool)
      requires Valid() && 1 <= |rest| && (rest[0] == EXIT_CHAR ==> 2 <= |rest|)
      modifies printer, scanner
      ensures var r := QuitOf(Terminal(), Coordinates(), rest, old(scanner.keys), outFile.text, modified);
        exit == r.exit && scanner.keys == r.keys && printer.events == old(printer.events) + r.events
    {
      exit := QuitCommand(rest);
      ghost var complained := printer.events;
      RewriteLastLine();
      MoveCursor(termRow, termColumn);
      ghost var r := QuitOf(Terminal(), Coordinates(), rest, old(scanner.keys), outFile.text, modified);
      Associate(old(printer.events), complained[|old(printer.events)|..],
                RowEvents(lines[firstLineDisplayed + rows - 1], firstColumnDisplayed, rows, columns));
    }

    /** The switch of `run` for every key but ':', as `KeyOf` says. */
    method KeyStep(k: Key)
      requires Valid() && k != Colon
      modifies printer, this`selectedLineNumber, this`selectedColumnInLine, this`desiredColumnInLine,
        this`firstLineDisplayed, this`firstColumnDisplayed, this`termRow, this`termColumn
      ensures var r := KeyOf(old(Terminal()), old(Coordinates()), k);
        Coordinates() == r.view && printer.events == old(printer.events) + r.events
    {
      match k {
        case Move(d) => MoveSelection(d);
        case FileStart => ToFileStart();
        case FileEnd => ToFileEnd();
        case LineStart => ToLineStart();
        case LineEnd => ToLineEnd();
        case Other =>
      }
    }

    /** The session still to come from the editor's present state, as `SessionOf` says. */
    ghost function Remaining(): Session
      requires Valid() && outFile.answers.fullResult != NO_ERROR
      reads this, scanner, outFile
    {
      SessionOf(Terminal(), Coordinates(), scanner.keys, outFile.text, modified, outFile.answers)
    }

    /**
     * `run`: calibrate, load the file and close it, show the start of the file,
     * then the key loop, and clear the screen when it ends without error. A
     * file that loads and closes without error must have at least as many
     * lines as the calibrated terminal has rows (`display_file_from` walks
     * `rows` lines from the first).
     */
    method Run() returns (err: ErrorCode)
      requires lines == [] && EndsLine(inFile.text) && inFile.stale != '\n' && inFile.FaultNotAfterCr()
      requires outFile.answers.fullResult != NO_ERROR
      requires inFile.openResult == NO_ERROR && inFile.ReadResult() == NO_ERROR && inFile.closeResult == NO_ERROR ==>
        var z := Calibrated(scanner.keys, Size(|CALIBRATION|, 1));
        Shaped(Screen(Load(inFile.text).lines, z.rows, z.columns))
      modifies this, inFile, printer, scanner, outFile
      ensures var z := Calibrated(old(scanner.keys), Size(|CALIBRATION|, 1));
        rows == z.rows && columns == z.columns
      ensures inFile.openResult == NO_ERROR ==> lines == Load(inFile.Readable()).lines
      ensures inFile.openResult != NO_ERROR ==> err == inFile.openResult
      ensures inFile.openResult == NO_ERROR && inFile.ReadResult() != NO_ERROR ==> err == inFile.ReadResult()
      ensures inFile.openResult == NO_ERROR && inFile.ReadResult() == NO_ERROR && inFile.closeResult != NO_ERROR ==>
        err == inFile.closeResult
      ensures inFile.openResult == NO_ERROR && inFile.ReadResult() == NO_ERROR && inFile.closeResult == NO_ERROR ==>
        var z := Calibrated(old(scanner.keys), Size(|CALIBRATION|, 1));
        var r := SessionOf(Screen(Load(inFile.text).lines, z.rows, z.columns), View(0, 0, 0, 0, 0, 1, 1),
                           Drop(old(scanner.keys), KeysToEnter(old(scanner.keys))), old(outFile.text), old(modified),
                           outFile.answers);
        err == r.err && Coordinates() == r.view && scanner.keys == r.keys && outFile.text == r.text &&
        modified == r.modified
    {
      Calibrate();
      err := LoadAndBrowse();
    }

    /** `run` after calibration: the file loaded and closed, then browsed on the calibrated terminal. */
    method LoadAndBrowse() returns (err: ErrorCode)
      requires lines == [] && EndsLine(inFile.text) && inFile.stale != '\n' && inFile.FaultNotAfterCr()
      requires outFile.answers.fullResult != NO_ERROR
      requires inFile.openResult == NO_ERROR && inFile.ReadResult() == NO_ERROR && inFile.closeResult == NO_ERROR ==>
        Shaped(Screen(Load(inFile.text).lines, rows, columns))
      modifies inFile, printer, scanner, outFile, this`lines, this`modified, this`selectedLineNumber,
        this`selectedColumnInLine, this`desiredColumnInLine, this`firstLineDisplayed, this`firstColumnDisplayed,
        this`termRow, this`termColumn
      ensures inFile.openResult == NO_ERROR ==> lines == Load(inFile.Readable()).lines
      ensures inFile.openResult == NO_ERROR && inFile.ReadResult() == NO_ERROR && inFile.closeResult == NO_ERROR ==>
        var r := SessionOf(Screen(Load(inFile.text).lines, rows, columns), View(0, 0, 0, 0, 0, 1, 1),
                           old(scanner.keys), old(outFile.text), old(modified), outFile.answers);
        err == r.err && Coordinates() == r.view && scanner.keys == r.keys && outFile.text == r.text &&
        modified == r.modified
      ensures err == if inFile.openResult != NO_ERROR then inFile.openResult
                     else if inFile.ReadResult() != NO_ERROR then inFile.ReadResult()
                     else if inFile.closeResult != NO_ERROR then inFile.closeResult
                     else err
    {
      err := LoadFile();
      if err != NO_ERROR {
        return;
      }
      assert inFile.Readable() == inFile.text;
      err := Browse();
    }

    /** The loading part of `run`: `read_in_file`, then the input file closed. */
    method LoadFile() returns (err: ErrorCode)
      requires lines == [] && EndsLine(inFile.text) && inFile.stale != '\n' && inFile.FaultNotAfterCr()
      modifies inFile, printer, this`lines
      ensures inFile.openResult == NO_ERROR ==> lines == Load(inFile.Readable()).lines
      ensures err == if inFile.openResult != NO_ERROR then inFile.openResult
                     else if inFile.ReadResult() != NO_ERROR then inFile.ReadResult()
                     else inFile.closeResult
    {
      err := ReadInFile();
      if err != NO_ERROR {
        return;
      }
      err := inFile.Close();
    }

    /**
     * The browsing part of `run`: the window origin set to `(unsigned) -1` so
     * that `to_file_start` redraws, then the key loop, and the screen cleared
     * when the loop ends without error.
     */
    method Browse() returns (err: ErrorCode)
      requires Shaped(Terminal()) && outFile.answers.fullResult != NO_ERROR
      modifies printer, scanner, outFile, this`modified, this`selectedLineNumber, this`selectedColumnInLine,
        this`desiredColumnInLine, this`firstLineDisplayed, this`firstColumnDisplayed, this`termRow, this`termColumn
      ensures var r := SessionOf(Terminal(), View(0, 0, 0, 0, 0, 1, 1), old(scanner.keys), old(outFile.text),
                                 old(modified), outFile.answers);
        err == r.err && Coordinates() == r.view && scanner.keys == r.keys && outFile.text == r.text &&
        modified == r.modified
    {
      firstLineDisplayed := TWO_32 - 1;
      firstColumnDisplayed := TWO_32 - 1;
      ToFileStart();
      var exit;
      err, exit := KeyLoop();
      if err != NO_ERROR {
        return;
      }
      Clear(true);
    }

    /** The key loop of `run` is under way: `done` printed since it began, and `r0` is that and what remains. */
    ghost predicate Running(r0: Session, events0: seq<Event>, done: seq<Event>)
      reads this, scanner, outFile, printer
    {
      Valid() && outFile.answers.fullResult != NO_ERROR &&
      r0 == Prepend(done, Remaining()) && printer.events == events0 + done
    }

    /** The key loop of `run` has ended in the state `r0` describes. */
    ghost predicate Ended(r0: Session, events0: seq<Event>, err: ErrorCode, exit: bool)
      reads this, scanner, outFile, printer
    {
      Valid() && err == r0.err && exit == r0.exit && Coordinates() == r0.view && scanner.keys == r0.keys &&
      outFile.text == r0.text && modified == r0.modified && printer.events == events0 + r0.events
    }

    /**
     * The key loop of `run`: keys dispatched until a command fails or exits;
     * the loop also ends when the keys run out.
     */
    method KeyLoop() returns (err: ErrorCode, exit: bool)
      requires Valid() && outFile.answers.fullResult != NO_ERROR
      modifies printer, scanner, outFile, this`modified, this`selectedLineNumber, this`selectedColumnInLine,
        this`desiredColumnInLine, this`firstLineDisplayed, this`firstColumnDisplayed, this`termRow, this`termColumn
      ensures Ended(SessionOf(old(Terminal()), old(Coordinates()), old(scanner.keys), old(outFile.text), old(modified),
                              outFile.answers), old(printer.events), err, exit)
    {
      ghost var r0 := Remaining();
      ghost var done: seq<Event> := [];
      err, exit := NO_ERROR, false;
      while err == NO_ERROR && !exit && scanner.keys != []
        invariant err == NO_ERROR && !exit ==> Running(r0, old(printer.events), done)
        invariant err != NO_ERROR || exit ==> Ended(r0, old(printer.events), err, exit)
        decreases |scanner.keys|
      {
        err, exit, done := SessionStep(r0, old(printer.events), done);
      }
      if err == NO_ERROR && !exit {
        assert done + [] == done;
      }
    }

    /** One key of `run`: read, then dispatched or run as a command. */
    method SessionStep(ghost r0: Session, ghost events0: seq<Event>, ghost done: seq<Event>)
      returns (err: ErrorCode, exit: bool, ghost done': seq<Event>)
      requires Running(r0, events0, done) && scanner.keys != []
      modifies printer, scanner, outFile, this`modified, this`selectedLineNumber, this`selectedColumnInLine,
        this`desiredColumnInLine, this`firstLineDisplayed, this`firstColumnDisplayed, this`termRow, this`termColumn
      ensures err == NO_ERROR && !exit ==> Running(r0, events0, done')
      ensures err != NO_ERROR || exit ==> Ended(r0, events0, err, exit)
      ensures |scanner.keys| < |old(scanner.keys)|
    {
      var c := ReadKey(r0, events0, done);
      if c == COMMAND_START {
        err, exit, done' := ColonStep(r0, events0, done);
      } else {
        DispatchColon(c);
        done' := MoveStep(r0, events0, done, c);
        err, exit := NO_ERROR, false;
      }
    }

    /** The key read at the top of the loop of `run`. */
    method ReadKey(ghost r0: Session, ghost events0: seq<Event>, ghost done: seq<Event>) returns (c: char)
      requires Running(r0, events0, done) && scanner.keys != []
      modifies scanner
      ensures KeyRead(r0, events0, done, c) && |scanner.keys| < |old(scanner.keys)|
    {
      ghost var keys := scanner.keys;
      c := scanner.GetChar();
      assert keys == [c] + scanner.keys;
    }

    /** The session from the present state had key `c` not yet been read. */
    ghost function AfterKey(c: char): Session
      requires Valid() && outFile.answers.fullResult != NO_ERROR
      reads this, scanner, outFile
    {
      SessionOf(Terminal(), Coordinates(), [c] + scanner.keys, outFile.text, modified, outFile.answers)
    }

    /** The key loop of `run` has just read `c`. */
    ghost predicate KeyRead(r0: Session, events0: seq<Event>, done: seq<Event>, c: char)
      reads this, scanner, outFile, printer
    {
      Valid() && outFile.answers.fullResult != NO_ERROR &&
      r0 == Prepend(done, AfterKey(c)) && printer.events == events0 + done
    }

    /** ':' read in `run`: a command. */
    method ColonStep(ghost r0: Session, ghost events0: seq<Event>, ghost done: seq<Event>)
      returns (err: ErrorCode, exit: bool, ghost done': seq<Event>)
      requires KeyRead(r0, events0, done, COMMAND_START)
      modifies printer, scanner, outFile, this`modified
      ensures err == NO_ERROR && !exit ==> Running(r0, events0, done')
      ensures err != NO_ERROR || exit ==> Ended(r0, events0, err, exit)
      ensures |scanner.keys| <= |old(scanner.keys)|
    {
      ghost var s, v := Terminal(), Coordinates();
      ghost var r := CommandOf(s, v, scanner.keys, outFile.text, modified, outFile.answers);
      SessionCommand(s, v, scanner.keys, outFile.text, modified, outFile.answers);
      err, exit := Command();
      Associate(events0, done, r.events);
      done' := done + r.events;
      if err == NO_ERROR && !exit {
        ghost var rest := SessionOf(s, v, r.keys, r.text, r.modified, outFile.answers);
        assert Remaining() == rest;
        PrependTwice(done, r.events, rest);
      } else {
        assert r0.events == done + r.events;
      }
    }

    /** Any other key read in `run`: a move, a jump, or nothing. */
    method MoveStep(ghost r0: Session, ghost events0: seq<Event>, ghost done: seq<Event>, c: char)
      returns (ghost done': seq<Event>)
      requires KeyRead(r0, events0, done, c) && Dispatch(c) != Colon
      modifies printer, this`selectedLineNumber, this`selectedColumnInLine,
        this`desiredColumnInLine, this`firstLineDisplayed, this`firstColumnDisplayed, this`termRow, this`termColumn
      ensures Running(r0, events0, done')
    {
      ghost var s, r := Terminal(), KeyOf(Terminal(), Coordinates(), Dispatch(c));
      ghost var rest := SessionOf(s, r.view, scanner.keys, outFile.text, modified, outFile.answers);
      SessionKey(s, Coordinates(), c, scanner.keys, outFile.text, modified, outFile.answers);
      KeyStep(Dispatch(c));
      assert Remaining() == rest;
      Associate(events0, done, r.events);
      Associate(done, r.events, rest.events);
      done' := done + r.events;
      assert r0 == Prepend(done', rest);
    }
  }
}
