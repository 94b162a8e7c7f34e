/**
 * The row normaliser of the activity scraper: turns a table's rows into
 * records keyed by the header texts, walking a cell cursor that skips a
 * leading row-number cell and looks one cell ahead for image-only cells in
 * item and skill columns.
 */
module Normalize {
  import opened Wrappers
  import opened Text
  import opened Seqs
  import opened Html

  function Id(s: string): string {
    s
  }

  /**
   * A Python dict from column header to text: the keys in insertion order and
   * the value of each key. Assigning to a present key keeps its position.
   */
  datatype Record = Record(keys: seq<string>, fields: map<string, string>) {
    ghost predicate Valid() {
      KeysDistinct(keys, Id) && forall k :: k in fields <==> k in keys
    }

    /** `record[k] = v`. */
    function Set(k: string, v: string): (r: Record)
      ensures Valid() ==> r.Valid()
      ensures r.fields == fields[k := v]
      ensures k in fields ==> r.keys == keys
      ensures k !in fields ==> r.keys == keys + [k]
    {
      if k in fields then Record(keys, fields[k := v])
      else
        var r := Record(keys + [k], fields[k := v]);
        assert Valid() ==> KeysDistinct(r.keys, Id) by {
          if Valid() {
            forall i, j | 0 <= i < j < |r.keys| ensures r.keys[i] != r.keys[j] {
              if j == |keys| {
                assert keys[i] in fields;
              }
            }
          }
        }
        r
    }
  }

  const EmptyRecord := Record([], map[])

  /** `any(value and str(value).strip() for value in record.values())`. */
  predicate HasContent(r: Record) {
    exists k :: k in r.fields && Strip(r.fields[k]) != ""
  }

  // ---------------------------------------------------------------- headers

  /** The non-empty stripped texts of the header row's cells, in order. */
  function Headers(headerRow: Row): (headers: seq<string>)
    ensures |headers| <= |headerRow|
    ensures forall i :: 0 <= i < |headers| ==> headers[i] != "" && NoOuterSpace(headers[i])
  {
    if headerRow == [] then []
    else
      var init := Headers(headerRow[..|headerRow| - 1]);
      var h := Strip(headerRow[|headerRow| - 1].text);
      if h != "" then init + [h] else init
  }

  /** A header is exactly a non-empty stripped text of some cell of the header row. */
  lemma {:induction false} HeadersOfCells(headerRow: Row)
    ensures forall h :: h in Headers(headerRow) <==>
              h != "" && exists j :: 0 <= j < |headerRow| && Strip(headerRow[j].text) == h
  {
    if headerRow != [] {
      var n := |headerRow| - 1;
      HeadersOfCells(headerRow[..n]);
      forall h | h != "" && (exists j :: 0 <= j < |headerRow| && Strip(headerRow[j].text) == h)
        ensures h in Headers(headerRow)
      {
        var j :| 0 <= j < |headerRow| && Strip(headerRow[j].text) == h;
        if j < n {
          assert headerRow[..n][j] == headerRow[j];
        }
      }
      forall h | h in Headers(headerRow)
        ensures exists j :: 0 <= j < |headerRow| && Strip(headerRow[j].text) == h
      {
        if h in Headers(headerRow[..n]) {
          var j :| 0 <= j < n && Strip(headerRow[..n][j].text) == h;
          assert headerRow[j] == headerRow[..n][j];
        }
      }
    }
  }

  /** What one cell of the header row gives: its stripped text, unless that is empty. */
  function HeaderOf(c: Cell): seq<string> {
    var h := Strip(c.text);
    if h != "" then [h] else []
  }

  /**
   * The headers list, in cell order, one header for each header-row cell
   * whose stripped text is non-empty; repeated texts stay repeated.
   */
  lemma {:induction false} HeadersInCellOrder(headerRow: Row)
    ensures Headers(headerRow) == Flatten(headerRow, HeaderOf)
    decreases |headerRow|
  {
    if headerRow != [] {
      HeadersInCellOrder(headerRow[..|headerRow| - 1]);
    }
  }

  /** Item and skill columns may hold an image-only cell followed by the name. */
  predicate IsImageColumn(header: string) {
    Contains(ToLower(header), "item") || Contains(ToLower(header), "skill(s)")
  }

  // ---------------------------------------------------------------- item names

  /** A link whose stripped text is longer than one character. */
  predicate UsableLabel(l: Link) {
    |Strip(l.text)| > 1
  }

  /** The stripped text of the first usable link. */
  function FirstUsableLabel(links: seq<Link>): (found: Option<string>)
    ensures found.None? <==> forall i :: 0 <= i < |links| ==> !UsableLabel(links[i])
    ensures found.Some? ==>
              exists i :: 0 <= i < |links| && UsableLabel(links[i])
                          && found.value == Strip(links[i].text)
                          && forall j :: 0 <= j < i ==> !UsableLabel(links[j])
  {
    if links == [] then None
    else if UsableLabel(links[0]) then Some(Strip(links[0].text))
    else
      var rest := FirstUsableLabel(links[1..]);
      assert forall i :: 1 <= i < |links| ==> links[i] == links[1..][i - 1];
      rest
  }

  /**
   * The name shown in a cell: the first usable link text, or else the whole
   * cell text, with footnote markers removed and the ends stripped.
   */
  function ItemName(c: Cell): (name: string)
    ensures NoOuterSpace(name)
  {
    match FirstUsableLabel(c.links)
    case Some(text) => Strip(RemoveFootnotes(text))
    case None => Strip(RemoveFootnotes(Strip(c.text)))
  }

  /**
   * The item name comes from the first link whose stripped text is longer
   * than one character, or, when there is none, from the cell's own text; no
   * other cell is read.
   */
  lemma ItemNameSource(c: Cell)
    ensures (exists i :: 0 <= i < |c.links| && UsableLabel(c.links[i])
                         && ItemName(c) == Strip(RemoveFootnotes(Strip(c.links[i].text)))
                         && forall j :: 0 <= j < i ==> !UsableLabel(c.links[j]))
            || ((forall i :: 0 <= i < |c.links| ==> !UsableLabel(c.links[i]))
                && ItemName(c) == Strip(RemoveFootnotes(Strip(c.text))))
  {
  }

  // ---------------------------------------------------------------- the cell cursor

  /** The cursor a data row starts at: 1 when its first cell is a row number. */
  function StartCursor(cells: seq<Cell>): (i: nat)
    ensures i <= 1 && i <= |cells|
    ensures i == 1 <==> cells != [] && IsDigits(Strip(cells[0].text))
  {
    if |cells| > 0 && IsDigits(Strip(cells[0].text)) then 1 else 0
  }

  /**
   * An item or skill column whose current cell is too short to be a name
   * (likely an image) reads the next cell instead, when there is one.
   */
  predicate LooksAhead(header: string, cells: seq<Cell>, i: nat)
    requires i < |cells|
  {
    IsImageColumn(header) && |Strip(cells[i].text)| <= 2 && i + 1 < |cells|
  }

  /**
   * Where the cursor goes after the field of `header` is read at `i`. Past the
   * last cell it stays; otherwise it moves one cell, or two after a look-ahead.
   */
  function Advance(header: string, cells: seq<Cell>, i: nat): (next: nat)
    ensures i >= |cells| ==> next == i
    ensures i < |cells| ==> next <= |cells| && next == if LooksAhead(header, cells, i) then i + 2 else i + 1
  {
    if i >= |cells| then i
    else if LooksAhead(header, cells, i) then i + 2
    else i + 1
  }

  /** The value read for `header` with the cursor at `i`. */
  function FieldValue(header: string, cells: seq<Cell>, i: nat): (value: string)
    ensures i >= |cells| ==> value == ""
    ensures i < |cells| && LooksAhead(header, cells, i) ==> value == ItemName(cells[i + 1])
    ensures i < |cells| && IsImageColumn(header) && !LooksAhead(header, cells, i) ==>
              value == ItemName(cells[i])
    ensures i < |cells| && !IsImageColumn(header) ==> value == CleanText(cells[i].text)
  {
    if i >= |cells| then ""
    else if IsImageColumn(header) then
      if LooksAhead(header, cells, i) then ItemName(cells[i + 1]) else ItemName(cells[i])
    else CleanText(cells[i].text)
  }

  /** The cursor before the header at position `j`. */
  function Cursor(headers: seq<string>, cells: seq<Cell>, j: nat): (c: nat)
    requires j <= |headers|
    ensures c <= |cells|
  {
    if j == 0 then StartCursor(cells)
    else Advance(headers[j - 1], cells, Cursor(headers, cells, j - 1))
  }

  /** The value read for the header at position `j`. */
  function FieldAt(headers: seq<string>, cells: seq<Cell>, j: nat): string
    requires j < |headers|
  {
    FieldValue(headers[j], cells, Cursor(headers, cells, j))
  }

  /** The values read for all headers, in header order. */
  function FieldValues(headers: seq<string>, cells: seq<Cell>): (values: seq<string>)
    ensures |values| == |headers|
    ensures forall j :: 0 <= j < |headers| ==> values[j] == FieldAt(headers, cells, j)
  {
    seq(|headers|, j requires 0 <= j < |headers| => FieldAt(headers, cells, j))
  }

  /** The dict built by assigning `values[j]` to `keys[j]` for each `j` in order. */
  function Assign(keys: seq<string>, values: seq<string>): Record
    requires |keys| == |values|
  {
    if keys == [] then EmptyRecord
    else
      var n := |keys| - 1;
      Assign(keys[..n], values[..n]).Set(keys[n], values[n])
  }

  function RowRecord(headers: seq<string>, cells: seq<Cell>): Record {
    Assign(headers, FieldValues(headers, cells))
  }

  /** A row-number first cell is never read as a field. */
  lemma {:induction false} RowNumberNeverRead(headers: seq<string>, cells: seq<Cell>, j: nat)
    requires j <= |headers|
    requires |cells| > 0 && IsDigits(Strip(cells[0].text))
    ensures Cursor(headers, cells, j) >= 1
  {
    if j > 0 {
      RowNumberNeverRead(headers, cells, j - 1);
    }
  }

  /** Once the cursor has run out of cells, this header and every later one read "". */
  lemma {:induction false} ExhaustedFieldsEmpty(headers: seq<string>, cells: seq<Cell>, j: nat, j': nat)
    requires j <= j' < |headers|
    requires Cursor(headers, cells, j) >= |cells|
    ensures Cursor(headers, cells, j') == Cursor(headers, cells, j)
    ensures FieldAt(headers, cells, j') == ""
    decreases j' - j
  {
    if j < j' {
      assert Cursor(headers, cells, j + 1) == Cursor(headers, cells, j);
      ExhaustedFieldsEmpty(headers, cells, j + 1, j');
    } else {
      assert FieldAt(headers, cells, j) == FieldValue(headers[j], cells, Cursor(headers, cells, j));
    }
  }

  /** No key after position `k` repeats the key at `k`. */
  predicate LastAssignment(keys: seq<string>, k: nat)
    requires k < |keys|
  {
    forall m :: k < m < |keys| ==> keys[m] != keys[k]
  }

  /** Assigning in order gives the keys, duplicates collapsed to their first position. */
  lemma {:induction false} AssignKeys(keys: seq<string>, values: seq<string>)
    requires |keys| == |values|
    ensures Assign(keys, values).Valid()
    ensures Assign(keys, values).keys == DedupBy(keys, Id)
  {
    if keys != [] {
      var n := |keys| - 1;
      AssignKeys(keys[..n], values[..n]);
      var prev := Assign(keys[..n], values[..n]);
      var h := keys[n];
      assert HasKey(prev.keys, Id, h) <==> h in prev.fields by {
        if h in prev.fields {
          var i :| 0 <= i < |prev.keys| && prev.keys[i] == h;
          assert Id(prev.keys[i]) == h;
        }
      }
    }
  }

  /** The value of a key is the value of its last assignment. */
  lemma {:induction false} AssignLast(keys: seq<string>, values: seq<string>, k: nat)
    requires |keys| == |values| && k < |keys| && LastAssignment(keys, k)
    ensures keys[k] in Assign(keys, values).fields
    ensures Assign(keys, values).fields[keys[k]] == values[k]
  {
    var n := |keys| - 1;
    if k < n {
      var ks, vs := keys[..n], values[..n];
      assert ks[k] == keys[k] && vs[k] == values[k];
      assert LastAssignment(ks, k) by {
        forall m | k < m < n ensures ks[m] != ks[k] {
          assert ks[m] == keys[m];
        }
      }
      AssignLast(ks, vs, k);
      assert keys[n] != keys[k];
    }
  }

  /**
   * A row's record has the headers, duplicates collapsed to their first
   * position, as its keys; a header's value is the one read at its last
   * position.
   */
  lemma {:induction false} RowRecordShape(headers: seq<string>, cells: seq<Cell>)
    ensures RowRecord(headers, cells).Valid()
    ensures RowRecord(headers, cells).keys == DedupBy(headers, Id)
    ensures forall k :: 0 <= k < |headers| && LastAssignment(headers, k) ==>
              headers[k] in RowRecord(headers, cells).fields
              && RowRecord(headers, cells).fields[headers[k]] == FieldAt(headers, cells, k)
  {
    AssignKeys(headers, FieldValues(headers, cells));
    forall k | 0 <= k < |headers| && LastAssignment(headers, k)
      ensures headers[k] in RowRecord(headers, cells).fields
      ensures RowRecord(headers, cells).fields[headers[k]] == FieldAt(headers, cells, k)
    {
      AssignLast(headers, FieldValues(headers, cells), k);
    }
  }

  /** A header row `#`, `Item`, `Quantity`. */
  const SampleHeaders: seq<string> := ["#", "Item", "Quantity"]

  /** A data row: a row number, an image-only cell, a linked item name and a quantity. */
  const SampleCells: seq<Cell> :=
    [Cell("1", [], false), Cell("", [], true),
     Cell("Iron Ore", [Link(Some("/wiki/Iron_Ore"), "Iron Ore")], false), Cell("5", [], false)]

  /**
   * Over the sample row, the row number is skipped, so `#` reads the image
   * cell and gets "", and the other headers read the next two cells.
   */
  lemma SampleRowRecord()
    ensures RowRecord(SampleHeaders, SampleCells)
              == Record(["#", "Item", "Quantity"], map["#" := "", "Item" := "Iron Ore", "Quantity" := "5"])
  {
    SampleFields();
    SampleAssign();
  }

  lemma SampleColumns()
    ensures !IsImageColumn("#") && IsImageColumn("Item") && !IsImageColumn("Quantity")
  {
    assert ToLower("#") == "#";
    assert ToLower("Item") == "item";
    assert StartsWith("item", "item");
    SampleQuantityColumn();
  }

  lemma SampleQuantityColumn()
    ensures !IsImageColumn("Quantity")
  {
    var q := ToLower("Quantity");
    forall k | 0 <= k < |q|
      ensures q[k] != 'e' && q[k] != 'k'
    {
      assert q[k] == LowerChar("Quantity"[k]);
    }
    assert "item"[2] == 'e' && "skill(s)"[1] == 'k';
    MissingChar(q, "item", 'e');
    MissingChar(q, "skill(s)", 'k');
  }

  lemma SampleCursors()
    ensures Cursor(SampleHeaders, SampleCells, 0) == 1
    ensures Cursor(SampleHeaders, SampleCells, 1) == 2
    ensures Cursor(SampleHeaders, SampleCells, 2) == 3
  {
    SampleColumns();
    StripTrimmed("1");
    StripTrimmed("Iron Ore");
    assert StartCursor(SampleCells) == 1;
  }

  lemma SampleFields()
    ensures FieldValues(SampleHeaders, SampleCells) == ["", "Iron Ore", "5"]
  {
    SampleHashField();
    SampleItemField();
    SampleQuantityField();
    var v := FieldValues(SampleHeaders, SampleCells);
    assert |v| == 3 && v[0] == "" && v[1] == "Iron Ore" && v[2] == "5";
  }

  lemma SampleHashField()
    ensures FieldAt(SampleHeaders, SampleCells, 0) == ""
  {
    SampleColumns();
    SampleCursors();
    StripTrimmed("");
    RemoveFootnotesPlain("");
  }

  lemma SampleItemField()
    ensures FieldAt(SampleHeaders, SampleCells, 1) == "Iron Ore"
  {
    SampleColumns();
    SampleCursors();
    StripTrimmed("Iron Ore");
    RemoveFootnotesPlain("Iron Ore");
  }

  lemma SampleQuantityField()
    ensures FieldAt(SampleHeaders, SampleCells, 2) == "5"
  {
    SampleColumns();
    SampleCursors();
    StripTrimmed("5");
    RemoveFootnotesPlain("5");
    CollapseFixed("5");
  }

  lemma SampleAssign()
    ensures Assign(SampleHeaders, ["", "Iron Ore", "5"])
              == Record(["#", "Item", "Quantity"], map["#" := "", "Item" := "Iron Ore", "Quantity" := "5"])
  {
    var headers, values := SampleHeaders, ["", "Iron Ore", "5"];
    assert headers[..2][..1] == ["#"] && headers[..2] == ["#", "Item"];
    assert values[..2][..1] == [""] && values[..2] == ["", "Iron Ore"];
    assert Assign(headers[..1], values[..1]) == Record(["#"], map["#" := ""]) by {
      assert headers[..1] == ["#"] && values[..1] == [""];
      assert Assign(["#"], [""]) == EmptyRecord.Set("#", "");
    }
    assert Assign(headers[..2], values[..2]) == Record(["#", "Item"], map["#" := "", "Item" := "Iron Ore"]) by {
      assert Assign(headers[..2], values[..2]) == Record(["#"], map["#" := ""]).Set("Item", "Iron Ore");
      assert "Item" !in map["#" := ""];
      assert ["#"] + ["Item"] == ["#", "Item"];
    }
    assert Assign(headers, values) == Record(["#", "Item"], map["#" := "", "Item" := "Iron Ore"]).Set("Quantity", "5");
    assert "Quantity" !in map["#" := "", "Item" := "Iron Ore"];
    assert ["#", "Item"] + ["Quantity"] == headers;
  }

  // ---------------------------------------------------------------- tables

  /** What one data row adds: nothing without cells or without content, else its record. */
  function RowData(headers: seq<string>, cells: seq<Cell>): (kept: seq<Record>)
    ensures kept == [] || kept == [RowRecord(headers, cells)]
    ensures kept != [] <==> cells != [] && HasContent(RowRecord(headers, cells))
    ensures forall r :: r in kept ==> r.Valid() && r.keys == DedupBy(headers, Id) && HasContent(r)
  {
    if cells == [] then []
    else
      var r := RowRecord(headers, cells);
      RowRecordShape(headers, cells);
      if HasContent(r) then [r] else []
  }

  /** The records of the data rows: rows without cells and rows with no content are dropped. */
  function DataRecords(headers: seq<string>, rows: seq<Row>): (records: seq<Record>)
    ensures |records| <= |rows|
    ensures forall r :: r in records ==>
              r.Valid() && r.keys == DedupBy(headers, Id) && HasContent(r)
  {
    if rows == [] then []
    else DataRecords(headers, rows[..|rows| - 1]) + RowData(headers, rows[|rows| - 1])
  }

  function RowDataOf(headers: seq<string>): Row -> seq<Record> {
    cells => RowData(headers, cells)
  }

  /** The records of the data rows are the rows' own contributions, concatenated in row order. */
  lemma {:induction false} DataRecordsOfRows(headers: seq<string>, rows: seq<Row>)
    ensures DataRecords(headers, rows) == Flatten(rows, RowDataOf(headers))
    decreases |rows|
  {
    if rows != [] {
      DataRecordsOfRows(headers, rows[..|rows| - 1]);
    }
  }

  /**
   * `clean_table_data`: no rows or no non-empty header gives no records;
   * otherwise the first row gives the headers and the others the records.
   */
  function TableRecords(t: Table): seq<Record> {
    if |t.rows| < 1 then []
    else
      var headers := Headers(t.rows[0]);
      if headers == [] then [] else DataRecords(headers, t.rows[1..])
  }

  /**
   * Every record of a table has exactly the table's headers as keys and some
   * non-empty value, and there is at most one record per data row.
   */
  lemma TableRecordsShape(t: Table)
    ensures |TableRecords(t)| <= if |t.rows| < 1 then 0 else |t.rows| - 1
    ensures TableRecords(t) != [] ==> |t.rows| >= 1 && Headers(t.rows[0]) != []
    ensures forall r :: r in TableRecords(t) ==>
              r.Valid() && r.keys == DedupBy(Headers(t.rows[0]), Id) && HasContent(r)
  {
  }

  /**
   * A table with a non-empty header gives, in row order, the record of every
   * data row that has cells and some content, and nothing else.
   */
  lemma TableRecordsRows(t: Table)
    requires |t.rows| >= 1 && Headers(t.rows[0]) != []
    ensures TableRecords(t) == Flatten(t.rows[1..], RowDataOf(Headers(t.rows[0])))
    ensures forall i :: 1 <= i < |t.rows| && t.rows[i] != [] && HasContent(RowRecord(Headers(t.rows[0]), t.rows[i]))
              ==> RowRecord(Headers(t.rows[0]), t.rows[i]) in TableRecords(t)
  {
    var headers := Headers(t.rows[0]);
    var rows := t.rows[1..];
    DataRecordsOfRows(headers, rows);
    forall i | 1 <= i < |t.rows| && t.rows[i] != [] && HasContent(RowRecord(headers, t.rows[i]))
      ensures RowRecord(headers, t.rows[i]) in TableRecords(t)
    {
      assert rows[i - 1] == t.rows[i];
      assert RowRecord(headers, t.rows[i]) in RowDataOf(headers)(rows[i - 1]);
      FlattenComplete(rows, RowDataOf(headers), i - 1, RowRecord(headers, t.rows[i]));
    }
  }

  // ---------------------------------------------------------------- the imperative walk

  /** The cursor walk over one data row. */
  method NormalizeRow(headers: seq<string>, cells: seq<Cell>) returns (rec: Record)
    ensures rec == RowRecord(headers, cells)
  {
    ghost var values := FieldValues(headers, cells);
    rec := EmptyRecord;
    var cellIndex := 0;
    if |cells| > 0 && IsDigits(Strip(cells[0].text)) {
      cellIndex := 1;
    }
    var j := 0;
    while j < |headers|
      invariant j <= |headers|
      invariant cellIndex == Cursor(headers, cells, j)
      invariant rec == Assign(headers[..j], values[..j])
    {
      var value;
      value, cellIndex := ReadField(headers[j], cells, cellIndex);
      AssignStep(headers, values, j);
      rec := rec.Set(headers[j], value);
      j := j + 1;
    }
    assert headers[..j] == headers && values[..j] == values;
  }

  /** The body of the header loop: the value read for `header` at `cellIndex`, and the cursor after it. */
  method ReadField(header: string, cells: seq<Cell>, cellIndex: nat) returns (value: string, next: nat)
    ensures value == FieldValue(header, cells, cellIndex)
    ensures next == Advance(header, cells, cellIndex)
  {
    next := cellIndex;
    if next >= |cells| {
      return "", next;
    }
    if IsImageColumn(header) {
      var currentText := Strip(cells[next].text);
      if (currentText == "" || |currentText| <= 2) && next + 1 < |cells| {
        next := next + 1;
        value := ItemName(cells[next]);
      } else {
        value := ItemName(cells[next]);
      }
    } else {
      value := CleanText(cells[next].text);
    }
    next := next + 1;
  }

  lemma AssignStep(keys: seq<string>, values: seq<string>, j: nat)
    requires |keys| == |values| && j < |keys|
    ensures Assign(keys[..j + 1], values[..j + 1]) == Assign(keys[..j], values[..j]).Set(keys[j], values[j])
  {
    assert keys[..j + 1][..j] == keys[..j] && values[..j + 1][..j] == values[..j];
  }

  /** The body of the row loop: the row's record when it has cells and some content. */
  method CleanRow(headers: seq<string>, cells: seq<Cell>) returns (kept: seq<Record>)
    ensures kept == RowData(headers, cells)
  {
    kept := [];
    if cells != [] {
      var rowData := NormalizeRow(headers, cells);
      if HasContent(rowData) {
        kept := [rowData];
      }
    }
  }

  /** `clean_table_data` over a whole table. */
  method CleanTableData(t: Table) returns (data: seq<Record>)
    ensures data == TableRecords(t)
  {
    if |t.rows| < 1 {
      return [];
    }
    var headers := Headers(t.rows[0]);
    if headers == [] {
      return [];
    }
    var body := t.rows[1..];
    data := [];
    var i := 0;
    while i < |body|
      invariant i <= |body|
      invariant data == Flatten(body[..i], RowDataOf(headers))
    {
      var kept := CleanRow(headers, body[i]);
      FlattenStep(body, i, RowDataOf(headers));
      data := data + kept;
      i := i + 1;
    }
    assert body[..i] == body;
    DataRecordsOfRows(headers, body);
  }
}
