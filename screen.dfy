/*
 * The screen compositor (Output in src/main.rs): the text of one frame, row
 * by row, for the window the cursor controller has scrolled to.
 *
 * The frame is built in a character buffer. Of the terminal commands the
 * source queues into that buffer, only the per-row "clear to end of line"
 * is kept, as the constant ClearLine; hiding, showing and moving the
 * terminal's cursor are left out, and the cursor position is returned as
 * numbers instead.
 */
module Screen {
  import opened Rows
  import opened Cursor

  /** The banner shown on an empty document. */
  const Welcome: string := "Pound Editor --- Version 3.0.0"

  /** The terminal command that clears the rest of a line (ESC [ K). */
  const ClearLine: string := "\U{1B}[K"

  /** The part of the document the terminal shows: its size and the window's top-left corner. */
  datatype Viewport = Viewport(screenColumns: nat, screenRows: nat, rowOffset: nat, columnOffset: nat)

  /** The window a controller state shows. */
  function ViewOf(s: CursorState): Viewport {
    Viewport(s.screenColumns, s.screenRows, s.rowOffset, s.columnOffset)
  }

  /**
   * A line centred on the screen as the welcome line is: the text cut to the
   * screen width, then a left margin of half the remaining width, whose first
   * character is a '~'.
   */
  function Centred(text: string, screenColumns: nat): (line: string)
    ensures |line| <= screenColumns
  {
    var shown := if |text| > screenColumns then text[..screenColumns] else text;
    var padding := (screenColumns - |shown|) / 2;
    if padding != 0 then ['~'] + Spaces(padding - 1) + shown else shown
  }

  /** The welcome line: the banner centred on the screen, never wider than it. */
  function Banner(screenColumns: nat): (banner: string)
    ensures |banner| <= screenColumns
  {
    Centred(Welcome, screenColumns)
  }

  /**
   * A centred line fits the screen, ends with as much of the text as fits,
   * and is centred: the space left of the text and the space right of it
   * differ by at most one, and a non-empty left margin starts with '~'
   * followed by spaces.
   */
  lemma CentredLayout(text: string, screenColumns: nat)
    ensures var line, shown := Centred(text, screenColumns), Min(|text|, screenColumns);
      && shown <= |line| <= screenColumns
      && line[|line| - shown..] == text[..shown]
      && var margin := |line| - shown;
      && margin <= screenColumns - |line| <= margin + 1
      && (margin > 0 ==> line[0] == '~' && forall j :: 1 <= j < margin ==> line[j] == ' ')
  {
    var shown := Min(|text|, screenColumns);
    var cut := if |text| > screenColumns then text[..screenColumns] else text;
    assert cut == text[..shown];
  }

  /**
   * The text of screen row i: the visible slice of a document row, a '~'
   * past the end of the document, or the banner a third of the way down the
   * screen of an empty document.
   */
  function ScreenLine(rows: seq<Row>, v: Viewport, i: nat): (line: string)
    requires i < v.screenRows
    ensures |line| <= v.screenColumns || line == "~"
  {
    var fileRow := i + v.rowOffset;
    if fileRow >= |rows| then
      if |rows| == 0 && i == v.screenRows / 3 then Banner(v.screenColumns) else "~"
    else
      var row := rows[fileRow].render;
      var len := Min(SaturatingSub(|row|, v.columnOffset), v.screenColumns);
      var start := if len == 0 then 0 else v.columnOffset;
      row[start..start + len]
  }

  /**
   * A screen row that shows a document row holds the characters of its
   * rendered form from the column offset on, as many as fit on the screen
   * (none when the offset is past the end); other rows hold a '~', or the
   * banner on an empty document. No row is wider than the screen.
   */
  lemma ScreenLineContents(rows: seq<Row>, v: Viewport, i: nat)
    requires i < v.screenRows
    ensures var line := ScreenLine(rows, v, i);
      && (i + v.rowOffset < |rows| ==>
            var render := rows[i + v.rowOffset].render;
            && |line| == Min(SaturatingSub(|render|, v.columnOffset), v.screenColumns)
            && forall j :: 0 <= j < |line| ==> line[j] == render[v.columnOffset + j])
      && (i + v.rowOffset >= |rows| ==>
            line == if |rows| == 0 && i == v.screenRows / 3 then Banner(v.screenColumns) else "~")
      && (1 <= v.screenColumns ==> |line| <= v.screenColumns)
  {
    CentredLayout(Welcome, v.screenColumns);
  }

  /**
   * Lines joined by "\r\n", with no break after the last one: the text
   * starts with the first line and ends with the last.
   */
  function JoinCrlf(lines: seq<string>): (joined: string)
    ensures |lines| == 0 ==> joined == []
    ensures |lines| > 0 ==> lines[0] <= joined
    ensures |lines| > 0 ==> var last := lines[|lines| - 1];
      |last| <= |joined| && joined[|joined| - |last|..] == last
    decreases |lines|
  {
    if |lines| == 0 then []
    else if |lines| == 1 then lines[0]
    else
      var rest := JoinCrlf(lines[1..]);
      var last := lines[|lines| - 1];
      assert lines[1..][|lines| - 2] == last;
      var joined := lines[0] + "\r\n" + rest;
      assert joined[|joined| - |last|..] == rest[|rest| - |last|..];
      joined
  }

  lemma {:induction false} JoinCrlfSnoc(lines: seq<string>, last: string)
    requires |lines| >= 1
    ensures JoinCrlf(lines + [last]) == JoinCrlf(lines) + "\r\n" + last
    decreases |lines|
  {
    if |lines| == 1 {
      assert lines + [last] == [lines[0], last];
      assert [lines[0], last][1..] == [last];
    } else {
      assert (lines + [last])[1..] == lines[1..] + [last];
      JoinCrlfSnoc(lines[1..], last);
    }
  }

  /**
   * What draw_rows has appended after its first k iterations: each line,
   * then a line break unless it is the last line of the screen.
   */
  function Emitted(lines: seq<string>, k: nat): (emitted: string)
    requires k <= |lines|
    ensures 1 <= k ==> emitted == JoinCrlf(lines[..k]) + (if k < |lines| then "\r\n" else "")
  {
    if k == 0 then []
    else
      var prefix := Emitted(lines, k - 1);
      var emitted := prefix + lines[k - 1] + (if k < |lines| then "\r\n" else "");
      if k == 1 then
        assert lines[..1] == [lines[0]];
        emitted
      else
        assert lines[..k] == lines[..k - 1] + [lines[k - 1]];
        JoinCrlfSnoc(lines[..k - 1], lines[k - 1]);
        emitted
  }

  /**
   * Emitting every line, each followed by a break except the last, gives the
   * lines joined by "\r\n" with no break after the last one.
   */
  lemma EmittedIsJoin(lines: seq<string>)
    ensures Emitted(lines, |lines|) == JoinCrlf(lines)
  {
    if |lines| > 0 {
      assert lines[..|lines|] == lines;
    }
  }

  /** Every screen row followed by the line clear. */
  function DrawnLines(rows: seq<Row>, v: Viewport): (lines: seq<string>)
    ensures |lines| == v.screenRows
  {
    seq(v.screenRows, i requires 0 <= i < v.screenRows => ScreenLine(rows, v, i) + ClearLine)
  }

  /** Screen row i of the drawn lines, kept apart so the drawing methods need not unfold the comprehension. */
  lemma DrawnLineAt(rows: seq<Row>, v: Viewport, i: nat)
    requires i < v.screenRows
    ensures DrawnLines(rows, v)[i] == ScreenLine(rows, v, i) + ClearLine
  {
  }

  /** Regrouping one iteration's output, kept apart so the drawing loop's proof stays small. */
  lemma AppendAssociates(a: string, b: string, c: string, d: string)
    ensures a + (b + c + d) == (a + b) + (c + d)
  {
  }

  /** On an 80-column screen the banner is a '~', 24 spaces and the whole welcome text. */
  lemma BannerAt80()
    ensures Banner(80) == ['~'] + Spaces(24) + Welcome
  {
    assert |Welcome| == 30;
    assert !(|Welcome| > 80);
    assert (80 - |Welcome|) / 2 == 25;
  }

  /**
   * The worked example: an empty document on an 80 x 24 screen, with the
   * terminal cursor in the top-left corner after the first redraw.
   */
  lemma EmptyDocumentScreen()
    ensures var v := Viewport(80, 24, 0, 0);
      && ScreenLine([], v, 8) == ['~'] + Spaces(24) + Welcome
      && forall i :: 0 <= i < 24 && i != 8 ==> ScreenLine([], v, i) == "~"
    ensures var t := Scrolled(Initial((80, 24)), []);
      && ViewOf(t) == Viewport(80, 24, 0, 0)
      && t.renderX - t.columnOffset == 0 && t.cursorY - t.rowOffset == 0
  {
    BannerAt80();
  }

  /** The Output object: the window size, the frame buffer, the controller and the document. */
  class Output {
    const screenColumns: nat
    const screenRows: nat
    var contents: string
    const controller: CursorController
    const rows: seq<Row>

    /** The controller was made for the same window. */
    ghost predicate Valid()
      reads controller
    {
      controller.screenColumns == screenColumns && controller.screenRows == screenRows
    }

    function View(): Viewport
      reads controller
    {
      Viewport(screenColumns, screenRows, controller.rowOffset, controller.columnOffset)
    }

    /** Output::new, with the window size and the loaded rows given rather than queried and read. */
    constructor (winSize: (nat, nat), rows: seq<Row>)
      ensures Valid() && fresh(controller)
      ensures screenColumns == winSize.0 && screenRows == winSize.1
      ensures this.rows == rows && contents == []
      ensures controller.State() == Initial(winSize)
    {
      screenColumns := winSize.0;
      screenRows := winSize.1;
      contents := [];
      controller := new CursorController(winSize);
      this.rows := rows;
    }

    /** draw_rows: appends the text of every screen row to the buffer. */
    method DrawRows()
      modifies this`contents
      ensures contents == old(contents) + JoinCrlf(DrawnLines(rows, View()))
    {
      ghost var lines := DrawnLines(rows, View());
      var screenRows := this.screenRows;
      for i := 0 to screenRows
        invariant contents == old(contents) + Emitted(lines, i)
      {
        ghost var before := contents;
        DrawRow(i);
        ghost var sep: string := if i + 1 < |lines| then "\r\n" else "";
        assert contents == before + (lines[i] + sep);
        AppendAssociates(old(contents), Emitted(lines, i), lines[i], sep);
      }
      EmittedIsJoin(lines);
    }

    /**
     * One iteration of draw_rows: the text of screen row i, the line clear,
     * and a line break unless it is the last row.
     */
    method DrawRow(i: nat)
      requires i < screenRows
      modifies this`contents
      ensures contents == old(contents) + (DrawnLines(rows, View())[i] + if i + 1 < screenRows then "\r\n" else "")
    {
      DrawLine(i);
      contents := contents + ClearLine;
      DrawnLineAt(rows, View(), i);
      if i < screenRows - 1 {
        contents := contents + "\r\n";
      }
    }

    /** The branches of one draw_rows iteration that append the row's text. */
    method DrawLine(i: nat)
      requires i < screenRows
      modifies this`contents
      ensures contents == old(contents) + ScreenLine(rows, View(), i)
    {
      var screenRows := this.screenRows;
      var screenColumns := this.screenColumns;
      var fileRow := i + controller.rowOffset;
      if fileRow >= NumberOfRows(rows) {
        if NumberOfRows(rows) == 0 && i == screenRows / 3 {
          DrawBanner(Welcome);
        } else {
          contents := contents + ['~'];
        }
      } else {
        var row := GetRender(rows, fileRow);
        var columnOffset := controller.columnOffset;
        var len := Min(SaturatingSub(|row|, columnOffset), screenColumns);
        var start := if len == 0 then 0 else columnOffset;
        contents := contents + row[start..start + len];
      }
    }

    /** The welcome branch of draw_rows: cut, pad and append the formatted welcome text. */
    method DrawBanner(text: string)
      modifies this`contents
      ensures contents == old(contents) + Centred(text, screenColumns)
    {
      var screenColumns := this.screenColumns;
      var welcome := text;
      if |welcome| > screenColumns {
        welcome := welcome[..screenColumns];
      }
      var padding: nat := (screenColumns - |welcome|) / 2;
      ghost var margin: string := [];
      if padding != 0 {
        contents := contents + ['~'];
        margin := ['~'];
        padding := padding - 1;
      }
      ghost var lead := contents;
      for k := 0 to padding
        invariant contents == lead + Spaces(k)
      {
        assert Spaces(k) + [' '] == Spaces(k + 1);
        contents := contents + [' '];
      }
      contents := contents + welcome;
      assert Centred(text, screenColumns) == margin + Spaces(padding) + welcome;
    }

    /**
     * refresh_screen: scroll, draw the frame, work out where the terminal's
     * cursor goes relative to the window, and flush the buffer. It cannot be
     * called on a window with no rows or no columns: the subtractions that
     * give the cursor position would go below zero.
     */
    method RefreshScreen() returns (frame: string, cursorColumn: nat, cursorRow: nat)
      requires Valid()
      requires 1 <= screenColumns && 1 <= screenRows
      requires WithinRaw(controller.State(), rows)
      requires controller.cursorY >= |rows| ==> controller.cursorX == 0
      modifies this`contents, controller
      ensures Valid()
      ensures controller.State() == Scrolled(old(controller.State()), rows)
      ensures frame == old(contents) + JoinCrlf(DrawnLines(rows, View()))
      ensures contents == []
      ensures controller.columnOffset + cursorColumn == controller.renderX && cursorColumn < screenColumns
      ensures controller.rowOffset + cursorRow == controller.cursorY && cursorRow < screenRows
    {
      ScrolledCursorOnScreen(controller.State(), rows);
      controller.Scroll(rows);
      DrawRows();
      cursorColumn := controller.renderX - controller.columnOffset;
      cursorRow := controller.cursorY - controller.rowOffset;
      frame := contents;
      contents := [];
    }

    /** Output::move_cursor hands the key to the controller. */
    method MoveCursor(direction: Direction)
      requires CanMove(controller.State(), direction, rows)
      modifies controller
      ensures controller.State() == Move(old(controller.State()), direction, rows)
    {
      controller.MoveCursor(direction, rows);
    }
  }
}
