/**
 * Parsed HTML as plain data. A table is a sequence of rows, a row the
 * sequence of its `td`/`th` cells; a cell keeps its text (`get_text()`), the
 * anchors inside it and whether it holds an `img`.
 */
module Html {
  import opened Wrappers

  /** An `a` element: its `href` attribute, if present, and its text. */
  datatype Link = Link(href: Option<string>, text: string)

  datatype Cell = Cell(text: string, links: seq<Link>, hasImage: bool)

  type Row = seq<Cell>

  datatype Table = Table(rows: seq<Row>)

  /** `row.get_text()`: the texts of the cells, concatenated. */
  function RowText(row: Row): string {
    if row == [] then "" else RowText(row[..|row| - 1]) + row[|row| - 1].text
  }

  /** `table.get_text()`: the texts of the rows, concatenated. */
  function TableText(t: Table): string {
    RowsText(t.rows)
  }

  function RowsText(rows: seq<Row>): string {
    if rows == [] then "" else RowsText(rows[..|rows| - 1]) + RowText(rows[|rows| - 1])
  }

  /** The text of two runs of cells is the text of the first followed by that of the second. */
  lemma {:induction false} RowTextAppend(a: Row, b: Row)
    ensures RowText(a + b) == RowText(a) + RowText(b)
    decreases |b|
  {
    if b == [] {
      assert a + b == a;
    } else {
      var n := |b| - 1;
      var ab := a + b;
      assert ab[..|ab| - 1] == a + b[..n];
      assert ab[|ab| - 1] == b[n];
      RowTextAppend(a, b[..n]);
      assert RowText(ab) == RowText(a + b[..n]) + b[n].text;
      assert RowText(b) == RowText(b[..n]) + b[n].text;
    }
  }

  /** A row's text holds the text of each of its cells, in cell order. */
  lemma {:induction false} RowTextSplit(row: Row, j: nat)
    requires j < |row|
    ensures RowText(row) == RowText(row[..j]) + row[j].text + RowText(row[j + 1..])
  {
    var x, c, y := row[..j], [row[j]], row[j + 1..];
    assert row == x + c + y;
    RowTextAppend(x + c, y);
    RowTextAppend(x, c);
    assert RowText(c) == row[j].text by {
      assert c[..0] == [];
    }
  }

  /** The text of two runs of rows is the text of the first followed by that of the second. */
  lemma {:induction false} RowsTextAppend(a: seq<Row>, b: seq<Row>)
    ensures RowsText(a + b) == RowsText(a) + RowsText(b)
    decreases |b|
  {
    if b == [] {
      assert a + b == a;
    } else {
      var n := |b| - 1;
      var ab := a + b;
      assert ab[..|ab| - 1] == a + b[..n];
      assert ab[|ab| - 1] == b[n];
      RowsTextAppend(a, b[..n]);
      assert RowsText(ab) == RowsText(a + b[..n]) + RowText(b[n]);
      assert RowsText(b) == RowsText(b[..n]) + RowText(b[n]);
    }
  }

  /** A table's text holds the text of each of its rows, in row order. */
  lemma {:induction false} TableTextSplit(t: Table, i: nat)
    requires i < |t.rows|
    ensures TableText(t) == RowsText(t.rows[..i]) + RowText(t.rows[i]) + RowsText(t.rows[i + 1..])
  {
    var x, c, y := t.rows[..i], [t.rows[i]], t.rows[i + 1..];
    assert t.rows == x + c + y;
    RowsTextAppend(x + c, y);
    RowsTextAppend(x, c);
    assert RowsText(c) == RowText(t.rows[i]) by {
      assert c[..0] == [];
    }
  }

  /** Some cell of the row holds an image. */
  function RowHasImage(row: Row): (b: bool)
    ensures b <==> exists j :: 0 <= j < |row| && row[j].hasImage
  {
    if row == [] then false
    else row[|row| - 1].hasImage || RowHasImage(row[..|row| - 1])
  }

  /** The scan of the rows for an image. */
  function RowsHaveImage(rows: seq<Row>): (b: bool)
    ensures b <==> exists i, j :: 0 <= i < |rows| && 0 <= j < |rows[i]| && rows[i][j].hasImage
  {
    if rows == [] then false
    else
      var last := rows[|rows| - 1];
      var b := RowHasImage(last) || RowsHaveImage(rows[..|rows| - 1]);
      assert b ==> exists i, j :: 0 <= i < |rows| && 0 <= j < |rows[i]| && rows[i][j].hasImage by {
        if RowHasImage(last) {
          var j :| 0 <= j < |last| && last[j].hasImage;
          assert rows[|rows| - 1][j].hasImage;
        } else if b {
          var i, j :| 0 <= i < |rows| - 1 && 0 <= j < |rows[..|rows| - 1][i]| && rows[..|rows| - 1][i][j].hasImage;
          assert rows[i][j].hasImage;
        }
      }
      assert (exists i, j :: 0 <= i < |rows| && 0 <= j < |rows[i]| && rows[i][j].hasImage) ==> b by {
        if !b {
          forall i, j | 0 <= i < |rows| && 0 <= j < |rows[i]|
            ensures !rows[i][j].hasImage
          {
            if i < |rows| - 1 {
              assert rows[i] == rows[..|rows| - 1][i];
            }
          }
        }
      }
      b
  }

  /** `bool(table.find_all('img'))`: some cell of the table holds an image. */
  function HasImages(t: Table): (b: bool)
    ensures b <==> exists i, j :: 0 <= i < |t.rows| && 0 <= j < |t.rows[i]| && t.rows[i][j].hasImage
  {
    RowsHaveImage(t.rows)
  }
}
