# Pound: a terminal text viewer, modelled in Dafny

Pound is a small terminal text viewer written in Rust (`src/main.rs`). It
loads a file as a list of rows. Each row is kept both as its raw text and as
a rendered string in which tabs are expanded to the next multiple of 8
columns. The viewer shows a window of the document sized to the terminal and
moves a cursor with the arrow, Home, End, PageUp and PageDown keys. Before
every key it scrolls the window so the cursor is visible and redraws the
whole screen into a buffer, which it then flushes.

This project models the parts of the viewer that compute things:

- **Rows** (`rows.dfy`): tab expansion. `Render` is the reference definition,
  built from the left one character at a time. `RenderRow` is the source's
  loop with its running column `index`, proved to produce `Render`. The lemmas
  cover:
  - the reserved capacity;
  - where each raw character lands in the rendered row;
  - prefixes;
  - lines without tabs.
- **Cursor** (`cursor.dfy`): the cursor controller. Its state is the value
  `CursorState`. The class `CursorController` updates the same fields in
  place, and each of its methods is proved to match a function of the old
  state:
  - `Move` for `move_cursor`;
  - `Scrolled` for `scroll`;
  - `GetRenderX` for `get_render_x`, a fold that is proved to equal the length
    of the rendered prefix.

  The page keys' jump-then-replay is `Paged`, with lemmas stating exactly
  which row each page key lands on.
- **Screen** (`screen.dfy`): `Output`. `ScreenLine` is the text of one screen
  row:
  - the visible slice of a rendered row;
  - a `~` past the end of the document;
  - or the centred welcome banner on an empty document.

  `DrawRows` is the source's loop, proved to append those lines, each followed
  by the clear-line command and joined by `\r\n`. `RefreshScreen` scrolls,
  draws and returns the terminal cursor position, which is proved to fall
  inside the window.
- **Editor** (`editor.dfy`): one key press (`Keypress`, `ProcessKeypress`), one
  turn of the main loop (`Run`), and whole sessions (`Session`). For a
  document without tabs, every redraw in a session is defined and puts the
  cursor on screen.

Conventions of the model:

- Text is ASCII. The source measures and slices rows in bytes, and here bytes
  and characters coincide.
- Rust's `usize` subtractions panic in a debug build when they would go below
  zero, and out-of-range slices always panic. The model follows debug-build
  semantics. The `requires` clauses exclude the inputs on which the
  source panics (`CanMove`, `CanPage`, `WithinRaw`, a non-empty window for the
  redraw). Three members exclude more than that, and "## Left out" lists
  them: `Screen.Output.RefreshScreen` and `Editor.Editor.Run` also exclude
  some states that cannot be reached, and `Editor.Session` covers only
  documents without tabs.
- Rows are given to the model already loaded. The window size is a parameter.
  The terminal cursor position is returned as numbers, not as an escape
  sequence.

### The raw/rendered mismatch

`move_cursor` limits `cursor_x` to the length of the *rendered* row
(`src/main.rs:290-295`). `get_render_x` slices the *raw* row at `cursor_x`
(`src/main.rs:316`). On a row containing a tab the rendered row is longer, so
the cursor can be placed past the end of the raw text. The next `scroll`
then slices out of range.

`Cursor.EndOvershootsRawOnTabRow` shows this on the row `"\t"`: End puts the
cursor on column 8 of a one-character raw row. The model therefore requires
`WithinRaw` (the cursor column is within the raw row) of `Scrolled` and of
everything that redraws. `Cursor.InBoundsWithinRawWithoutTabs` and
`Editor.Session` show that this always holds on a document without tabs.

`scroll` also limits the column offset by `cursor_x`, the raw column, while it
compares the offset with `render_x` (`src/main.rs:309-311`). The model keeps
that as written.

## Model

| member | source | states |
|---|---|---|
| Rows.NextTabStop | src/main.rs:319-320 | A tab at display column c moves to a column past c, at most 8 further, on a multiple of 8 |
| Rows.TabStopIsLeast | src/main.rs:166-170 | That column is the first multiple of 8 after c, which is where the padding loop stops |
| Rows.Expand | src/main.rs:165-173 | One raw character becomes 1 to 8 columns: a non-tab is copied; a tab becomes spaces that end on a tab stop |
| Rows.Render | src/main.rs:163-174 | The rendered line is never shorter than the raw line |
| Rows.RenderSnoc | src/main.rs:163-174 | Rendering one more raw character appends exactly that character's expansion at the current column |
| Rows.Capacity | src/main.rs:158-161 | The reserved capacity is between one and eight bytes per raw character |
| Rows.RenderWithinCapacity | src/main.rs:158-162 | The rendered line always fits in the capacity reserved for it |
| Rows.RenderPrefix | src/main.rs:163-174 | Rendering a prefix of a raw line gives a prefix of the rendered line |
| Rows.RenderCharacter | src/main.rs:163-174 | A non-tab character is copied into exactly one column; a tab becomes 1 to 8 spaces ending on a tab stop |
| Rows.RenderWithoutTabs | src/main.rs:171-173 | A line without tabs renders as itself |
| Rows.RenderRow | src/main.rs:156-175 | The push loop with its running index produces exactly `Render` of the raw line |
| Rows.NumberOfRows | src/main.rs:144-146 | The row count is the number of loaded rows, the bound below which the lookups are defined |
| Rows.GetRender | src/main.rs:148-150 | Row `at`'s display form, defined exactly for `at` below the row count |
| Rows.GetEditorRow | src/main.rs:152-154 | Row `at` itself, a row of the document whose display form is what get_render returns |
| Rows.LookupsRendered | src/main.rs:130-154 | For a document loaded by rendering every line, both lookups give the row's raw text rendered |
| Cursor.Initial | src/main.rs:235-245 | The new controller has the cursor and both offsets at 0 and the given window; that position is in bounds and within the raw text of every document |
| Cursor.RowLength | src/main.rs:290-294 | The clamp length is the rendered length of the cursor's row, or 0 past the last row; on a loaded document it lies between the raw length and 8 times it |
| Cursor.Move | src/main.rs:247-296 | After any cursor key the column is within the rendered length of the cursor's row, the cursor stays on or just past the document, and nothing but the cursor changes |
| Cursor.VerticalMoves | src/main.rs:251-266 | Up stops at row 0, Down stops one past the last row, and both clamp the column to the new row |
| Cursor.HomeAndEnd | src/main.rs:282-287 | Home goes to column 0; End goes to the rendered row's end, or column 0 past the last row |
| Cursor.LeftAtOriginStays | src/main.rs:254-261 | Left at the top-left corner does nothing |
| Cursor.WrapRightThenLeft | src/main.rs:254-281 | Right at a row's end wraps to the next row's start, and Left from there returns to the same place |
| Cursor.Moves | src/main.rs:247-296 | Any sequence of cursor keys keeps an in-bounds cursor in bounds and leaves the window unchanged |
| Cursor.Repeat | src/main.rs:71-77 | Replaying Up or Down clamps the column and keeps the cursor on or just past the document |
| Cursor.RepeatUpLands | src/main.rs:71-77 | n Up moves land on row max(y - n, 0) |
| Cursor.RepeatDownLands | src/main.rs:71-77 | n Down moves land on row min(y + n, number of rows) |
| Cursor.Paged | src/main.rs:62-77 | A page key leaves the cursor on or just past the document, with its column clamped when the window has a row |
| Cursor.PageUpLands | src/main.rs:62-77 | PageUp lands one screenful above the window's top row, or on row 0 |
| Cursor.PageDownLands | src/main.rs:62-77 | PageDown lands on row rowOffset + 2·screenRows − 1, or on the row past the end |
| Cursor.RenderColumns | src/main.rs:318-324 | The fold over c raw characters reaches a display column between c and 8c |
| Cursor.GetRenderX | src/main.rs:315-325 | The display column of raw column x is between x and 8x |
| Cursor.RenderColumnsIsRenderLength | src/main.rs:315-325 | The fold equals the length of the rendered text, so it agrees with the renderer |
| Cursor.GetRenderXIsRenderedPrefixLength | src/main.rs:315-325 | The display column of raw column k is the length of the rendered first k characters and lies within the rendered row |
| Cursor.Scrolled | src/main.rs:298-313 | Scrolling recomputes renderX from the rendered prefix, puts the cursor row inside the window, keeps the row offset when it already was, keeps renderX left of the window's right edge, and changes only the offsets and renderX |
| Cursor.ScrollMovesLeast | src/main.rs:304-307 | No window position containing the cursor row is closer to the old row offset than the one scroll picks |
| Cursor.ScrolledCursorOnScreen | src/main.rs:345-350 | After scroll, the cursor position sent to the terminal is defined and inside the window |
| Cursor.EndOvershootsRawOnTabRow | src/main.rs:282-295 | On the row "\t", End puts the cursor past the end of the raw text that get_render_x slices |
| Cursor.InBoundsWithinRawWithoutTabs | src/main.rs:315-316 | Without tabs, a cursor within the rendered row is within the raw row |
| Rows.TwoThenTab | src/main.rs:163-174 | Two ordinary characters and a tab render as those characters and 6 spaces, reaching column 8 |
| Rows.TabExample | src/main.rs:156-175 | A line such as "ab\tc" (two ordinary characters, a tab, one more) renders as the two characters, 6 spaces and the last one |
| Cursor.TabExampleRenderX | src/main.rs:315-325 | In such a line raw column 3, just after the tab, is display column 8 |
| Cursor.CursorController.constructor | src/main.rs:235-245 | A new controller has the cursor and both offsets at 0 and the given window size |
| Cursor.CursorController.MoveCursor | src/main.rs:247-296 | The in-place update leaves the controller in the state `Move` gives |
| Cursor.CursorController.Scroll | src/main.rs:298-313 | The in-place update leaves the controller in the state `Scrolled` gives |
| Screen.Centred | src/main.rs:367-376 | The cut, padded welcome line never exceeds the screen width |
| Screen.Banner | src/main.rs:366-376 | The welcome line, "Pound Editor --- Version 3.0.0" centred, never exceeds the screen width |
| Screen.CentredLayout | src/main.rs:367-376 | A centred line fits the width, ends with as much of the text as fits, is centred to within one column, and its margin is a '~' then spaces |
| Screen.BannerAt80 | src/main.rs:366-376 | On 80 columns the banner is '~', 24 spaces and the whole welcome text |
| Screen.ScreenLine | src/main.rs:362-388 | A screen row fits the screen width, except for the single '~' drawn past the end of the document on a screen with no columns |
| Screen.ScreenLineContents | src/main.rs:362-388 | A screen row shows the rendered row's characters from the column offset, as many as fit, or '~', or the banner; no row is wider than the screen |
| Screen.DrawnLines | src/main.rs:362-393 | One drawn line per screen row |
| Screen.JoinCrlf | src/main.rs:390-393 | Lines joined by "\r\n" start with the first line and end with the last; no lines give the empty text |
| Screen.Emitted | src/main.rs:362-393 | After k iterations the buffer holds the first k lines joined by "\r\n", followed by one more break unless line k was the last |
| Screen.EmittedIsJoin | src/main.rs:390-393 | Appending a line break after every line but the last joins the lines with "\r\n" |
| Screen.EmptyDocumentScreen | src/main.rs:345-379 | On an empty 80×24 screen, row 8 is '~', 24 spaces and the banner, every other row is "~", and the first redraw puts the cursor at (0, 0) |
| Screen.Output.constructor | src/main.rs:329-338 | A new output has an empty buffer and a fresh controller for the same window |
| Screen.Output.DrawRows | src/main.rs:359-395 | The buffer grows by exactly the screen rows, each with its line clear, joined by "\r\n" |
| Screen.Output.DrawRow | src/main.rs:363-393 | One iteration appends screen row i, the line clear, and a line break unless it is the last row |
| Screen.Output.DrawLine | src/main.rs:363-388 | The branches of one iteration append exactly that screen row's text: the banner, a '~' or the visible slice |
| Screen.Output.DrawBanner | src/main.rs:367-376 | The welcome branch appends exactly the centred line of the text it formats |
| Screen.Output.RefreshScreen | src/main.rs:345-357 | Refreshing scrolls, returns the drawn frame, empties the buffer and returns a cursor position inside the window |
| Screen.Output.MoveCursor | src/main.rs:397-400 | Delegating leaves the controller in the state `Move` gives |
| Editor.Keypress | src/main.rs:39-82 | A key changes only the cursor, and after a redraw every key keeps an in-bounds cursor in bounds |
| Editor.Session | src/main.rs:84-87 | On a document without tabs, any sequence of redraw-then-key turns keeps the cursor in bounds and within the raw row, so every redraw is defined |
| Editor.SessionCursorOnScreen | src/main.rs:345-350 | After any keys on a document without tabs, the next redraw puts the cursor inside the window |
| Editor.Editor.constructor | src/main.rs:32-37 | A new editor holds a fresh output and controller at the initial state |
| Editor.Editor.ProcessKeypress | src/main.rs:39-82 | Arrow keys move the cursor and page keys jump then replay screenRows moves, leaving the state `Keypress` gives |
| Editor.Editor.Run | src/main.rs:84-87 | One turn returns the frame for the scrolled state and then applies the key to it |

## Left out

- Reading keys (`Reader::read_key`, polling, crossterm events) is left out because it is terminal I/O. Keys arrive already decoded.
- Key decoding and modifiers are left out: keys with modifiers and unrecognised keys are ignored, and Ctrl-Q makes `process_keypress` return `false` to end the loop. `Session` runs a finite key sequence instead.
- The `unimplemented!()` arm of `move_cursor` cannot be reached, because only the six cursor keys reach it.
- Loading the document is left out because it is file and argument I/O: `EditorRows::new`, `from_file` and the splitting into lines by `str::lines`. Rows are a parameter.
- Querying the terminal size in `Output::new` is left out because it is terminal I/O. The window size is a parameter.
- `CleanUp`, raw mode and `clear_screen` are left out because they are terminal I/O.
- The `EditorContents` writer is modelled only as a growing string. Its UTF-8 check and its flush to stdout are left out. A flush is modelled as returning the buffer and emptying it.
- Of the escape sequences, only the line clear (ESC [ K) is modelled. Hiding and showing the cursor, `MoveTo(0, 0)` and the final `MoveTo` are left out. The final cursor position is returned as numbers.
- The `u16` casts of the cursor position are not modelled.
- In a release build the `usize` subtractions at src/main.rs:67 and src/main.rs:349-350 wrap around instead of panicking. The model follows debug-build semantics and excludes those inputs (`CanPage`, and the non-empty window required by `Screen.Output.RefreshScreen`, `Editor.Editor.Run` and `Editor.Session`).
- `usize` overflow of additions is not modelled, because integers are unbounded.
- Non-ASCII text is not modelled: byte lengths and slicing at char boundaries of multi-byte text are out of scope.
- I/O errors (`Result`) are not modelled.
- Screen.Output.RefreshScreen: requires the column to be 0 whenever the cursor is past the last row. That is the state `move_cursor` always leaves, but the source would also redraw without panicking from such a state with a column offset of 0.
- Editor.Session: requires a document without tabs. On such a document every
  session is proved safe. On a document with tabs the source can reach a
  state where the next redraw slices past the raw row
  (`Cursor.EndOvershootsRawOnTabRow`), so no such promise holds for all
  sessions. The model does not characterise which key sequences on a tabbed
  document stay safe.
- Editor.Editor.Run: requires an in-bounds cursor, which every state reached from the start keeps (`Editor.Keypress`, `Editor.Session`). This rules out a few unreachable states on which the source would not panic.
