/*
 * The cursor controller (CursorController in src/main.rs): the cursor's
 * position in raw columns and rows, the display column it corresponds to,
 * and the offsets of the window shown on the terminal. The pure functions
 * below say what each operation does to the whole state; the class at the
 * end updates its fields in place and is proved to agree with them.
 *
 * The source's integers are `usize`. A subtraction that would go below zero
 * panics there (debug build); here such a call is excluded by a `requires`.
 */
module Cursor {
  import opened Rows

  /** The six keys move_cursor handles; any other key is unimplemented there. */
  datatype Direction = Up | Down | Left | Right | Home | End

  /** The two page keys handled by the editor's key loop. */
  datatype Page = PageUp | PageDown

  /** The fields of a CursorController, as one value. */
  datatype CursorState = CursorState(
    cursorX: nat,
    cursorY: nat,
    screenColumns: nat,
    screenRows: nat,
    rowOffset: nat,
    columnOffset: nat,
    renderX: nat)

  /**
   * The state CursorController::new builds from the window size (columns,
   * rows): the cursor at the top-left of the document and of the window, a
   * position that is in bounds and within the raw text of any document.
   */
  function Initial(winSize: (nat, nat)): (s: CursorState)
    ensures s.screenColumns == winSize.0 && s.screenRows == winSize.1
    ensures s.cursorX == s.cursorY == s.rowOffset == s.columnOffset == s.renderX == 0
    ensures forall rows: seq<Row> :: InBounds(s, rows) && WithinRaw(s, rows)
  {
    CursorState(0, 0, winSize.0, winSize.1, 0, 0, 0)
  }

  /**
   * The row length the cursor column is clamped to: the rendered length of
   * row y, or 0 for the row past the end. On a loaded document it lies
   * between the raw length and TabStop times it.
   */
  function RowLength(rows: seq<Row>, y: nat): (len: nat)
    ensures y < |rows| ==> len == |rows[y].render|
    ensures y >= |rows| ==> len == 0
    ensures Rendered(rows) && y < |rows| ==> |rows[y].content| <= len <= TabStop * |rows[y].content|
  {
    RenderWithinCapacity(if y < |rows| then rows[y].content else []);
    if y < |rows| then |rows[y].render| else 0
  }

  /** The cursor invariant: on a row or just past the last one, and not beyond the row's end. */
  predicate InBounds(s: CursorState, rows: seq<Row>) {
    s.cursorY <= |rows| && s.cursorX <= RowLength(rows, s.cursorY)
  }

  /** What get_render_x needs: the cursor column is within the raw text it slices. */
  predicate WithinRaw(s: CursorState, rows: seq<Row>) {
    s.cursorY < |rows| ==> s.cursorX <= |rows[s.cursorY].content|
  }

  /** Left at column 0 wraps to the previous row, which must exist in the document. */
  predicate CanMove(s: CursorState, direction: Direction, rows: seq<Row>) {
    direction == Left && s.cursorX == 0 && s.cursorY > 0 ==> s.cursorY - 1 < |rows|
  }

  /**
   * move_cursor: the key's own effect on (cursorX, cursorY), followed by the
   * clamp of cursorX to the rendered length of the row the cursor ends on.
   */
  function Move(s: CursorState, direction: Direction, rows: seq<Row>): (t: CursorState)
    requires CanMove(s, direction, rows)
    ensures t.cursorX <= RowLength(rows, t.cursorY)
    ensures s.cursorY <= |rows| ==> t.cursorY <= |rows|
    ensures t == s.(cursorX := t.cursorX, cursorY := t.cursorY)
  {
    var moved: (nat, nat) :=
      match direction
      case Up => (s.cursorX, SaturatingSub(s.cursorY, 1))
      case Left =>
        if s.cursorX != 0 then (s.cursorX - 1, s.cursorY)
        else if s.cursorY > 0 then (|rows[s.cursorY - 1].render|, s.cursorY - 1)
        else (s.cursorX, s.cursorY)
      case Down => (s.cursorX, if s.cursorY < |rows| then s.cursorY + 1 else s.cursorY)
      case Right =>
        if s.cursorY < |rows| && s.cursorX < |rows[s.cursorY].render| then (s.cursorX + 1, s.cursorY)
        else if s.cursorY < |rows| && s.cursorX == |rows[s.cursorY].render| then (0, s.cursorY + 1)
        else (s.cursorX, s.cursorY)
      case End => (if s.cursorY < |rows| then |rows[s.cursorY].render| else s.cursorX, s.cursorY)
      case Home => (0, s.cursorY);
    s.(cursorX := Min(moved.0, RowLength(rows, moved.1)), cursorY := moved.1)
  }

  /** Up stops at the first row and Down at the row past the last one; neither leaves its column past the row's end. */
  lemma VerticalMoves(s: CursorState, rows: seq<Row>)
    requires s.cursorY <= |rows|
    ensures var up := Move(s, Up, rows);
      up.cursorY == (if s.cursorY == 0 then 0 else s.cursorY - 1)
      && up.cursorX == Min(s.cursorX, RowLength(rows, up.cursorY))
    ensures var down := Move(s, Down, rows);
      down.cursorY == (if s.cursorY < |rows| then s.cursorY + 1 else |rows|)
      && down.cursorX == Min(s.cursorX, RowLength(rows, down.cursorY))
  {
  }

  /** Home goes to column 0; End goes to the end of the rendered row, or column 0 past the last row. */
  lemma HomeAndEnd(s: CursorState, rows: seq<Row>)
    ensures Move(s, Home, rows) == s.(cursorX := 0)
    ensures Move(s, End, rows) == s.(cursorX := RowLength(rows, s.cursorY))
  {
  }

  /** Left at the top-left corner changes nothing. */
  lemma LeftAtOriginStays(s: CursorState, rows: seq<Row>)
    requires s.cursorX == 0 && s.cursorY == 0
    ensures Move(s, Left, rows) == s
  {
  }

  /**
   * Right at the end of a row wraps to the start of the next one, and Left
   * from there wraps back to the end of the original row.
   */
  lemma WrapRightThenLeft(s: CursorState, rows: seq<Row>)
    requires s.cursorY < |rows| && s.cursorX == |rows[s.cursorY].render|
    ensures var r := Move(s, Right, rows);
      && r == s.(cursorX := 0, cursorY := s.cursorY + 1)
      && Move(r, Left, rows) == s
  {
  }

  /** Any sequence of arrow keys, pressed one after the other. */
  function Moves(s: CursorState, directions: seq<Direction>, rows: seq<Row>): (t: CursorState)
    requires InBounds(s, rows)
    ensures InBounds(t, rows)
    ensures t == s.(cursorX := t.cursorX, cursorY := t.cursorY)
    decreases |directions|
  {
    if directions == [] then s
    else Moves(Move(s, directions[0], rows), directions[1..], rows)
  }

  /** The same vertical move replayed `count` times, as the page keys do. */
  function Repeat(s: CursorState, direction: Direction, count: nat, rows: seq<Row>): (t: CursorState)
    requires direction == Up || direction == Down
    ensures count > 0 ==> t.cursorX <= RowLength(rows, t.cursorY)
    ensures s.cursorY <= |rows| ==> t.cursorY <= |rows|
    ensures t == s.(cursorX := t.cursorX, cursorY := t.cursorY)
    decreases count
  {
    if count == 0 then s
    else Move(Repeat(s, direction, count - 1, rows), direction, rows)
  }

  lemma {:induction false} RepeatUpLands(s: CursorState, count: nat, rows: seq<Row>)
    ensures Repeat(s, Up, count, rows).cursorY == SaturatingSub(s.cursorY, count)
  {
    if count > 0 {
      RepeatUpLands(s, count - 1, rows);
    }
  }

  lemma {:induction false} RepeatDownLands(s: CursorState, count: nat, rows: seq<Row>)
    requires s.cursorY <= |rows|
    ensures Repeat(s, Down, count, rows).cursorY == Min(s.cursorY + count, |rows|)
  {
    if count > 0 {
      RepeatDownLands(s, count - 1, rows);
    }
  }

  /** The page keys can only underflow on PageDown, in `screen_rows + row_offset - 1`. */
  predicate CanPage(s: CursorState, page: Page) {
    page == PageDown ==> s.screenRows + s.rowOffset >= 1
  }

  /**
   * PageUp / PageDown: jump to the top row of the window, or to its bottom row
   * (no further than the row past the end), then replay screenRows single Up
   * or Down moves.
   */
  function Paged(s: CursorState, page: Page, rows: seq<Row>): (t: CursorState)
    requires CanPage(s, page)
    ensures s.screenRows >= 1 ==> t.cursorX <= RowLength(rows, t.cursorY)
    ensures page == PageDown || s.rowOffset <= |rows| ==> t.cursorY <= |rows|
    ensures t == s.(cursorX := t.cursorX, cursorY := t.cursorY)
  {
    var top := if page == PageUp then s.rowOffset
               else Min(s.screenRows + s.rowOffset - 1, |rows|);
    Repeat(s.(cursorY := top), if page == PageUp then Up else Down, s.screenRows, rows)
  }

  /** PageUp puts the cursor one screenful above the window's top row, or on row 0. */
  lemma PageUpLands(s: CursorState, rows: seq<Row>)
    ensures Paged(s, PageUp, rows).cursorY == SaturatingSub(s.rowOffset, s.screenRows)
  {
    RepeatUpLands(s.(cursorY := s.rowOffset), s.screenRows, rows);
  }

  /** PageDown puts the cursor one screenful below the window's bottom row, or on the row past the end. */
  lemma PageDownLands(s: CursorState, rows: seq<Row>)
    requires CanPage(s, PageDown)
    ensures Paged(s, PageDown, rows).cursorY == Min(s.rowOffset + 2 * s.screenRows - 1, |rows|)
  {
    var top := Min(s.screenRows + s.rowOffset - 1, |rows|);
    RepeatDownLands(s.(cursorY := top), s.screenRows, rows);
  }

  /** The display column reached after the raw characters of `s`: get_render_x's fold. */
  function RenderColumns(s: string): (col: nat)
    ensures |s| <= col <= TabStop * |s|
    decreases |s|
  {
    if s == [] then 0
    else
      var col := RenderColumns(s[..|s| - 1]);
      if s[|s| - 1] == '\t' then NextTabStop(col) else col + 1
  }

  /** get_render_x: slices the raw text at the cursor column, which must not be past its end. */
  function GetRenderX(row: Row, cursorX: nat): (renderX: nat)
    requires cursorX <= |row.content|
    ensures cursorX <= renderX <= TabStop * cursorX
  {
    RenderColumns(row.content[..cursorX])
  }

  /** The fold of get_render_x and the renderer agree on where a raw text ends on screen. */
  lemma {:induction false} RenderColumnsIsRenderLength(s: string)
    ensures RenderColumns(s) == |Render(s)|
    decreases |s|
  {
    if s != [] {
      RenderColumnsIsRenderLength(s[..|s| - 1]);
    }
  }

  /**
   * The display column of raw column k is the length of the rendered first k
   * characters, and so lies within the rendered row.
   */
  lemma GetRenderXIsRenderedPrefixLength(row: Row, k: nat)
    requires row.render == Render(row.content)
    requires k <= |row.content|
    ensures GetRenderX(row, k) == |Render(row.content[..k])| <= |row.render|
  {
    RenderColumnsIsRenderLength(row.content[..k]);
    RenderPrefix(row.content, k);
  }

  /**
   * scroll: recompute renderX for the cursor's row, then move each offset the
   * least needed to bring the cursor back into the window. The column clamp
   * compares the column offset with cursorX, the raw column, as the source does.
   */
  function Scrolled(s: CursorState, rows: seq<Row>): (t: CursorState)
    requires WithinRaw(s, rows)
    ensures t == s.(rowOffset := t.rowOffset, columnOffset := t.columnOffset, renderX := t.renderX)
    ensures t.renderX == if s.cursorY < |rows| then |Render(rows[s.cursorY].content[..s.cursorX])| else 0
    ensures s.screenRows >= 1 ==> t.rowOffset <= t.cursorY < t.rowOffset + t.screenRows
    ensures s.rowOffset <= s.cursorY < s.rowOffset + s.screenRows ==> t.rowOffset == s.rowOffset
    ensures t.renderX < t.columnOffset + t.screenColumns
    ensures t.columnOffset <= s.cursorX || t.columnOffset + t.screenColumns == t.renderX + 1
  {
    var renderX :=
      if s.cursorY < |rows| then GetRenderX(rows[s.cursorY], s.cursorX) else 0;
    var rowOffset := Min(s.rowOffset, s.cursorY);
    var rowOffset' :=
      if s.cursorY >= rowOffset + s.screenRows then s.cursorY - s.screenRows + 1 else rowOffset;
    var columnOffset := Min(s.columnOffset, s.cursorX);
    var columnOffset' :=
      if renderX >= columnOffset + s.screenColumns then renderX - s.screenColumns + 1 else columnOffset;
    RenderColumnsIsRenderLength(if s.cursorY < |rows| then rows[s.cursorY].content[..s.cursorX] else []);
    s.(rowOffset := rowOffset', columnOffset := columnOffset', renderX := renderX)
  }

  function Distance(a: nat, b: nat): nat {
    if a <= b then b - a else a - b
  }

  /** No window position that contains the cursor row is closer to the old row offset. */
  lemma ScrollMovesLeast(s: CursorState, rows: seq<Row>, top: nat)
    requires WithinRaw(s, rows)
    requires top <= s.cursorY < top + s.screenRows
    ensures Distance(Scrolled(s, rows).rowOffset, s.rowOffset) <= Distance(top, s.rowOffset)
  {
  }

  /**
   * The cursor position that refresh_screen sends to the terminal,
   * (renderX - columnOffset, cursorY - rowOffset), is defined after scroll
   * and lies inside the window, provided the window is at least one cell and
   * the cursor is where move_cursor keeps it.
   */
  lemma ScrolledCursorOnScreen(s: CursorState, rows: seq<Row>)
    requires WithinRaw(s, rows)
    requires s.cursorY >= |rows| ==> s.cursorX == 0
    requires s.screenRows >= 1 && s.screenColumns >= 1
    ensures var t := Scrolled(s, rows);
      && t.columnOffset <= t.renderX && t.renderX - t.columnOffset < t.screenColumns
      && t.rowOffset <= t.cursorY && t.cursorY - t.rowOffset < t.screenRows
  {
  }

  /**
   * move_cursor clamps the column to the RENDERED row while get_render_x
   * slices the RAW row: on the row "\t", End puts the cursor on column 8 of a
   * one-character raw row, and the next scroll would slice past its end.
   */
  lemma EndOvershootsRawOnTabRow()
    ensures var rows := [Row("\t", Render("\t"))];
      var t := Move(Initial((80, 24)), End, rows);
      t.cursorX == 8 && !WithinRaw(t, rows)
  {
    var raw := "\t";
    assert raw[..|raw| - 1] == [];
    assert |Render(raw)| == 8;
  }

  /** Without tabs the rendered and raw lengths agree, so every in-bounds cursor can be scrolled. */
  lemma InBoundsWithinRawWithoutTabs(s: CursorState, rows: seq<Row>)
    requires Rendered(rows) && NoTabs(rows)
    requires InBounds(s, rows)
    ensures WithinRaw(s, rows)
  {
    if s.cursorY < |rows| {
      RenderWithoutTabs(rows[s.cursorY].content);
    }
  }

  /** In that line, raw column 3, just after the tab, is display column 8. */
  lemma TabExampleRenderX(a: char, b: char, c: char)
    requires a != '\t' && b != '\t' && c != '\t'
    ensures GetRenderX(Row([a, b, '\t', c], [a, b] + Spaces(6) + [c]), 3) == 8
  {
    TwoThenTab(a, b);
    assert [a, b, '\t', c][..3] == [a, b, '\t'];
    RenderColumnsIsRenderLength([a, b, '\t']);
  }

  /**
   * The controller itself. The window size is fixed when it is created; the
   * cursor and the offsets change in place.
   */
  class CursorController {
    var cursorX: nat
    var cursorY: nat
    const screenColumns: nat
    const screenRows: nat
    var rowOffset: nat
    var columnOffset: nat
    var renderX: nat

    function State(): CursorState
      reads this
    {
      CursorState(cursorX, cursorY, screenColumns, screenRows, rowOffset, columnOffset, renderX)
    }

    constructor (winSize: (nat, nat))
      ensures State() == Initial(winSize)
    {
      cursorX := 0;
      cursorY := 0;
      screenColumns := winSize.0;
      screenRows := winSize.1;
      rowOffset := 0;
      columnOffset := 0;
      renderX := 0;
    }

    method MoveCursor(direction: Direction, rows: seq<Row>)
      requires CanMove(State(), direction, rows)
      modifies this
      ensures State() == Move(old(State()), direction, rows)
    {
      var numOfRows := NumberOfRows(rows);
      match direction {
        case Up =>
          cursorY := SaturatingSub(cursorY, 1);
        case Left =>
          if cursorX != 0 {
            cursorX := cursorX - 1;
          } else if cursorY > 0 {
            cursorY := cursorY - 1;
            cursorX := |GetRender(rows, cursorY)|;
          }
        case Down =>
          if cursorY < numOfRows {
            cursorY := cursorY + 1;
          }
        case Right =>
          if cursorY < numOfRows {
            var len := |GetRender(rows, cursorY)|;
            if cursorX < len {
              cursorX := cursorX + 1;
            } else if cursorX == len {
              cursorY := cursorY + 1;
              cursorX := 0;
            }
          }
        case End =>
          if cursorY < numOfRows {
            cursorX := |GetRender(rows, cursorY)|;
          }
        case Home =>
          cursorX := 0;
      }
      var rowLen := if cursorY < numOfRows then |GetRender(rows, cursorY)| else 0;
      cursorX := Min(cursorX, rowLen);
    }

    method Scroll(rows: seq<Row>)
      requires WithinRaw(State(), rows)
      modifies this
      ensures State() == Scrolled(old(State()), rows)
    {
      renderX := 0;
      if cursorY < NumberOfRows(rows) {
        renderX := GetRenderX(GetEditorRow(rows, cursorY), cursorX);
      }
      rowOffset := Min(rowOffset, cursorY);
      if cursorY >= rowOffset + screenRows {
        rowOffset := cursorY - screenRows + 1;
      }
      columnOffset := Min(columnOffset, cursorX);
      if renderX >= columnOffset + screenColumns {
        columnOffset := renderX - screenColumns + 1;
      }
    }
  }
}
