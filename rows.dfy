/*
 * The document of the viewer: its rows, each held both as raw text and as
 * the display string with tabs expanded (EditorRows and render_row in
 * src/main.rs). Text is taken to be ASCII, so that the source's byte
 * lengths and byte slices coincide with the character lengths used here.
 */
module Rows {

  /** Width of a tab stop: a tab moves the display column to the next multiple of it. */
  const TabStop: nat := 8

  function Min(a: nat, b: nat): nat {
    if a <= b then a else b
  }

  /** `a.saturating_sub(b)` on unsigned integers. */
  function SaturatingSub(a: nat, b: nat): nat {
    if a >= b then a - b else 0
  }

  /** The column a tab typed at display column `col` advances to. */
  function NextTabStop(col: nat): (next: nat)
    ensures col < next <= col + TabStop
    ensures next % TabStop == 0
  {
    assert col == TabStop * (col / TabStop) + col % TabStop;
    col + (TabStop - 1) - col % TabStop + 1
  }

  /** NextTabStop is the least multiple of TabStop strictly after `col`. */
  lemma TabStopIsLeast(col: nat, m: nat)
    requires col < m && m % TabStop == 0
    ensures NextTabStop(col) <= m
  {
    var q, p := col / TabStop, m / TabStop;
    assert col == TabStop * q + col % TabStop;
    assert m == TabStop * p;
    assert TabStop * q < TabStop * p;
    assert TabStop * (q + 1) <= TabStop * p;
  }

  function Spaces(n: nat): (s: string)
    ensures |s| == n && forall i :: 0 <= i < n ==> s[i] == ' '
  {
    seq(n, _ => ' ')
  }

  /**
   * What one raw character becomes when it is drawn at display column `col`:
   * a non-tab is copied, a tab becomes between one and TabStop spaces that
   * end on a tab stop.
   */
  function Expand(c: char, col: nat): (expansion: string)
    ensures 1 <= |expansion| <= TabStop
    ensures c != '\t' ==> expansion == [c]
    ensures c == '\t' ==> (col + |expansion|) % TabStop == 0 && forall j :: 0 <= j < |expansion| ==> expansion[j] == ' '
  {
    if c == '\t' then Spaces(NextTabStop(col) - col) else [c]
  }

  /**
   * The display form of a raw line, built character by character from the
   * left: a tab pads with spaces up to the next tab stop, any other character
   * is copied.
   */
  function Render(raw: string): (render: string)
    ensures |raw| <= |render|
    decreases |raw|
  {
    if raw == [] then []
    else
      var prefix := Render(raw[..|raw| - 1]);
      prefix + Expand(raw[|raw| - 1], |prefix|)
  }

  /** Rendering one more character appends that character's expansion. */
  lemma RenderSnoc(raw: string, c: char)
    ensures Render(raw + [c]) == Render(raw) + Expand(c, |Render(raw)|)
  {
    assert (raw + [c])[..|raw|] == raw;
  }

  /** The capacity reserved for the rendered line: TabStop per tab, one per other character. */
  function Capacity(raw: string): (capacity: nat)
    ensures |raw| <= capacity <= TabStop * |raw|
    decreases |raw|
  {
    if raw == [] then 0
    else Capacity(raw[..|raw| - 1]) + (if raw[|raw| - 1] == '\t' then TabStop else 1)
  }

  /** The rendered line never outgrows the capacity reserved for it. */
  lemma {:induction false} RenderWithinCapacity(raw: string)
    ensures |raw| <= |Render(raw)| <= Capacity(raw) <= TabStop * |raw|
    decreases |raw|
  {
    if raw != [] {
      RenderWithinCapacity(raw[..|raw| - 1]);
    }
  }

  /** Rendering a prefix of a line yields a prefix of the rendered line. */
  lemma {:induction false} RenderPrefix(raw: string, k: nat)
    requires k <= |raw|
    ensures Render(raw[..k]) <= Render(raw)
    decreases |raw|
  {
    if k == |raw| {
      assert raw[..k] == raw;
    } else {
      var init := raw[..|raw| - 1];
      assert init[..k] == raw[..k];
      RenderPrefix(init, k);
    }
  }

  /**
   * How raw character i appears in the rendered line: it occupies the columns
   * from |Render(raw[..i])| up to |Render(raw[..i + 1])|; a non-tab is copied
   * into one column, a tab becomes at least one space and ends on a tab stop.
   */
  lemma RenderCharacter(raw: string, i: nat)
    requires i < |raw|
    ensures var before, after := |Render(raw[..i])|, |Render(raw[..i + 1])|;
      && before < after <= |Render(raw)|
      && (raw[i] != '\t' ==> after == before + 1 && Render(raw)[before] == raw[i])
      && (raw[i] == '\t' ==>
            && after % TabStop == 0
            && after - before <= TabStop
            && forall j :: before <= j < after ==> Render(raw)[j] == ' ')
  {
    var line := raw[..i + 1];
    assert line[..|line| - 1] == raw[..i];
    RenderPrefix(raw, i + 1);
  }

  /** A line without tabs is drawn exactly as it is. */
  lemma {:induction false} RenderWithoutTabs(raw: string)
    requires '\t' !in raw
    ensures Render(raw) == raw
    decreases |raw|
  {
    if raw != [] {
      var init := raw[..|raw| - 1];
      assert forall j :: 0 <= j < |init| ==> init[j] == raw[j];
      RenderWithoutTabs(init);
      assert raw == init + [raw[|raw| - 1]];
    }
  }

  /** Two ordinary characters and a tab render as the characters and six spaces, up to column 8. */
  lemma TwoThenTab(a: char, b: char)
    requires a != '\t' && b != '\t'
    ensures Render([a, b, '\t']) == [a, b] + Spaces(6)
  {
    var line := [a, b, '\t'];
    assert line[..2] == [a, b];
    assert Render([a, b]) == [a, b] by { RenderWithoutTabs([a, b]); }
    assert NextTabStop(2) == 8;
  }

  /**
   * The worked example: a line of two ordinary characters, a tab and one more
   * character, such as "ab\tc", renders with the tab padded to column 8.
   */
  lemma TabExample(a: char, b: char, c: char)
    requires a != '\t' && b != '\t' && c != '\t'
    ensures Render([a, b, '\t', c]) == [a, b] + Spaces(6) + [c]
  {
    TwoThenTab(a, b);
    RenderSnoc([a, b, '\t'], c);
    assert [a, b, '\t'] + [c] == [a, b, '\t', c];
  }

  /**
   * render_row: walks the raw line with a running output column `index`,
   * pushing each non-tab character and, for a tab, one space followed by
   * spaces until `index` reaches a tab stop.
   */
  method RenderRow(content: string) returns (render: string)
    ensures render == Render(content)
  {
    var index: nat := 0;
    render := [];
    for i := 0 to |content|
      invariant render == Render(content[..i])
      invariant index == |render|
    {
      assert content[..i + 1][..i] == content[..i];
      var c := content[i];
      index := index + 1;
      if c == '\t' {
        ghost var column := index - 1;
        render := render + [' '];
        assert Spaces(1) == [' '];
        while index % TabStop != 0
          invariant column < index <= NextTabStop(column)
          invariant render == Render(content[..i]) + Spaces(index - column)
          invariant index == |render|
          decreases NextTabStop(column) - index
        {
          assert Spaces(index - column) + [' '] == Spaces(index + 1 - column);
          render := render + [' '];
          index := index + 1;
        }
        TabStopIsLeast(column, index);
      } else {
        render := render + [c];
      }
    }
    assert content[..|content|] == content;
  }

  /** One line of the document: raw text and its rendered form. */
  datatype Row = Row(content: string, render: string)

  /** Every row's rendered form is the rendering of its raw text, as loading makes it. */
  predicate Rendered(rows: seq<Row>) {
    forall i :: 0 <= i < |rows| ==> rows[i].render == Render(rows[i].content)
  }

  predicate NoTabs(rows: seq<Row>) {
    forall i :: 0 <= i < |rows| ==> '\t' !in rows[i].content
  }

  /** number_of_rows: the count of loaded rows, below which the lookups are defined. */
  function NumberOfRows(rows: seq<Row>): (n: nat)
    ensures n == |rows|
  {
    |rows|
  }

  /** get_render: the display form of row `at`. */
  function GetRender(rows: seq<Row>, at: nat): (render: string)
    requires at < NumberOfRows(rows)
    ensures render == rows[at].render
  {
    rows[at].render
  }

  /** get_editor_row: row `at` itself, whose display form is the one get_render returns. */
  function GetEditorRow(rows: seq<Row>, at: nat): (row: Row)
    requires at < NumberOfRows(rows)
    ensures row == rows[at] && row.render == GetRender(rows, at)
  {
    rows[at]
  }

  /** On a loaded document the display form either lookup gives is the row's raw text rendered. */
  lemma LookupsRendered(rows: seq<Row>, at: nat)
    requires Rendered(rows) && at < NumberOfRows(rows)
    ensures GetRender(rows, at) == Render(GetEditorRow(rows, at).content)
  {
  }
}
