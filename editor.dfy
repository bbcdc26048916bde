/*
 * The editor's key loop (Editor in src/main.rs): each turn redraws the
 * screen and then handles one key. Reading keys from the terminal and
 * recognising Ctrl-Q, which ends the loop, are not modelled; a key arrives
 * here already decoded into an arrow key or a page key.
 */
module Editor {
  import opened Rows
  import opened Cursor
  import opened Screen

  /** A key the viewer acts on: one of the six cursor keys, or PageUp / PageDown. */
  datatype Key = Arrow(direction: Direction) | Paging(page: Page)

  /** The keys that cannot panic in the given state. */
  predicate CanPress(s: CursorState, key: Key, rows: seq<Row>) {
    match key
    case Arrow(direction) => CanMove(s, direction, rows)
    case Paging(page) => CanPage(s, page)
  }

  /**
   * process_keypress: what one key does to the controller. After a redraw the
   * window's top row is at or above the cursor, and from there every key
   * keeps the cursor on the document and within its row.
   */
  function Keypress(s: CursorState, key: Key, rows: seq<Row>): (t: CursorState)
    requires CanPress(s, key, rows)
    ensures t == s.(cursorX := t.cursorX, cursorY := t.cursorY)
    ensures InBounds(s, rows) && s.rowOffset <= s.cursorY && s.screenRows >= 1 ==> InBounds(t, rows)
  {
    match key
    case Arrow(direction) => Move(s, direction, rows)
    case Paging(page) => Paged(s, page, rows)
  }

  /**
   * The main loop over a sequence of keys on a document without tabs: before
   * each key the screen is redrawn, which scrolls. Every redraw along the way
   * is defined, and the cursor stays on the document, within its row, and
   * within the raw text that the next redraw slices.
   */
  function Session(s: CursorState, keys: seq<Key>, rows: seq<Row>): (t: CursorState)
    requires Rendered(rows) && NoTabs(rows)
    requires s.screenRows >= 1 && s.screenColumns >= 1 && InBounds(s, rows)
    ensures InBounds(t, rows) && WithinRaw(t, rows)
    ensures t.screenRows == s.screenRows && t.screenColumns == s.screenColumns
    decreases |keys|
  {
    InBoundsWithinRawWithoutTabs(s, rows);
    if keys == [] then s
    else
      var shown := Scrolled(s, rows);
      Session(Keypress(shown, keys[0], rows), keys[1..], rows)
  }

  /**
   * After any sequence of keys from a freshly started viewer on a document
   * without tabs, the next redraw puts the terminal cursor inside the window.
   */
  lemma SessionCursorOnScreen(winSize: (nat, nat), keys: seq<Key>, rows: seq<Row>)
    requires Rendered(rows) && NoTabs(rows)
    requires winSize.0 >= 1 && winSize.1 >= 1
    ensures var t := Scrolled(Session(Initial(winSize), keys, rows), rows);
      && t.columnOffset <= t.renderX < t.columnOffset + t.screenColumns
      && t.rowOffset <= t.cursorY < t.rowOffset + t.screenRows
  {
    var s := Session(Initial(winSize), keys, rows);
    ScrolledCursorOnScreen(s, rows);
  }

  /** The viewer: the output, which holds the controller and the document. */
  class Editor {
    const output: Output

    /** Editor::new, with the window size and the loaded rows given. */
    constructor (winSize: (nat, nat), rows: seq<Row>)
      ensures fresh(output) && fresh(output.controller) && output.Valid()
      ensures output.screenColumns == winSize.0 && output.screenRows == winSize.1
      ensures output.rows == rows && output.contents == []
      ensures output.controller.State() == Initial(winSize)
    {
      output := new Output(winSize, rows);
    }

    /**
     * process_keypress for a decoded key. A page key first moves the cursor
     * to the top or bottom row of the window, then replays one Up or Down
     * per screen row.
     */
    method ProcessKeypress(key: Key)
      requires output.Valid()
      requires CanPress(output.controller.State(), key, output.rows)
      modifies output.controller
      ensures output.Valid()
      ensures output.controller.State() == Keypress(old(output.controller.State()), key, output.rows)
    {
      var controller := output.controller;
      match key {
        case Arrow(direction) =>
          output.MoveCursor(direction);
        case Paging(page) =>
          if page == PageUp {
            controller.cursorY := controller.rowOffset;
          } else {
            controller.cursorY := Min(output.screenRows + controller.rowOffset - 1, NumberOfRows(output.rows));
          }
          ghost var jumped := controller.State();
          var direction := if page == PageUp then Up else Down;
          for k := 0 to output.screenRows
            invariant controller.State() == Repeat(jumped, direction, k, output.rows)
          {
            output.MoveCursor(direction);
          }
      }
    }

    /** Editor::run: redraw the screen, then handle one key. */
    method Run(key: Key) returns (frame: string, cursorColumn: nat, cursorRow: nat)
      requires output.Valid()
      requires 1 <= output.screenColumns && 1 <= output.screenRows
      requires InBounds(output.controller.State(), output.rows)
      requires WithinRaw(output.controller.State(), output.rows)
      modifies output, output.controller
      ensures output.Valid() && output.contents == []
      ensures var shown := Scrolled(old(output.controller.State()), output.rows);
        && frame == old(output.contents) + JoinCrlf(DrawnLines(output.rows, ViewOf(shown)))
        && cursorColumn == shown.renderX - shown.columnOffset
        && cursorRow == shown.cursorY - shown.rowOffset
        && output.controller.State() == Keypress(shown, key, output.rows)
    {
      frame, cursorColumn, cursorRow := output.RefreshScreen();
      ProcessKeypress(key);
    }
  }
}
