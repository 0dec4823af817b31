/**
 * What each operation of the JSON document store does to the document, as
 * functions from the document read at the start of the call to the document
 * written at its end (or to the error raised, in which case nothing is
 * written), with the properties the store promises proved about them.
 */
module Store {
  import opened Model

  /** `db.get("sheets", {})`, and also the `if "sheets" not in db: db["sheets"] = {}` step. */
  function SheetsOf(d: Document): Sheets {
    d.sheets.GetOr(NO_SHEETS)
  }

  /** The document a store starts from when its file does not exist. */
  function InitialDocument(): Document {
    Document(Some(NO_SHEETS), map["created_at" := Null, "last_updated" := Null])
  }

  /** `get_sheet_data`: the rows of the sheet, or `None` when there is no such sheet. */
  function SheetData(d: Document, name: string): Option<seq<Row>> {
    SheetsOf(d).Lookup(name)
  }

  /** `db["sheets"][name] = rows`, creating the "sheets" mapping when the file lacks it. */
  function WithSheet(d: Document, name: string, rows: seq<Row>): (r: Document)
    ensures d.WellFormed() ==> r.WellFormed()
    ensures r.metadata == d.metadata
    ensures SheetData(r, name) == Some(rows)
    ensures forall n :: n != name ==> SheetData(r, n) == SheetData(d, n)
    ensures SheetsOf(d).order <= SheetsOf(r).order
  {
    d.(sheets := Some(SheetsOf(d).Put(name, rows)))
  }

  /** The metadata `save_excel_data` writes: the time of the save and the source file name. */
  function SavedMetadata(sourceFile: Option<string>, now: string): map<string, Value> {
    map["last_updated" := Str(now), "source_file" := if sourceFile.Some? then Str(sourceFile.value) else Null]
  }

  /** Assigns `source[n]` to every sheet `n` of `names`, in that order. */
  function PutAll(base: Sheets, names: seq<string>, source: map<string, seq<Row>>): Sheets
    requires forall n :: n in names ==> n in source
    decreases |names|
  {
    if names == [] then base
    else PutAll(base.Put(names[0], source[names[0]]), names[1..], source)
  }

  /** `save_excel_data(excel_data, source_file)` with the clock reading `now`. */
  function ExcelSaved(d: Document, excel: Sheets, sourceFile: Option<string>, now: string): Document
    requires excel.WellFormed()
  {
    Document(Some(PutAll(SheetsOf(d), excel.order, excel.table)), SavedMetadata(sourceFile, now))
  }

  /** `update_sheet_data(name, rows)`. */
  function SheetReplaced(d: Document, name: string, rows: seq<Row>): Document {
    WithSheet(d, name, rows)
  }

  /** `update_field(name, i, field, v)`: the written document, or the `IndexError` raised. */
  function FieldUpdated(d: Document, name: string, i: int, field: string, v: Value): Result<Document> {
    var rows := SheetData(d, name).GetOr([]);
    if 0 <= i < |rows| then Ok(WithSheet(d, name, rows[i := rows[i][field := v]]))
    else Err(IndexError(i))
  }

  /** `add_row(name, row)`. */
  function RowAdded(d: Document, name: string, row: Row): Document {
    WithSheet(d, name, SheetData(d, name).GetOr([]) + [row])
  }

  /** `delete_row(name, i)`: the written document, or the `ValueError` / `IndexError` raised. */
  function RowDeleted(d: Document, name: string, i: int): Result<Document> {
    match SheetData(d, name)
    case None => Err(ValueError(name))
    case Some(rows) =>
      if 0 <= i < |rows| then Ok(WithSheet(d, name, rows[..i] + rows[i + 1..]))
      else Err(IndexError(i))
  }

  // ---------------------------------------------------------------------------
  // update_field

  /**
   * An in-range `update_field` sets exactly one cell: the row count, the other
   * rows, the other fields of that row, the other sheets, the order of the
   * sheets and the metadata stay as they were.
   */
  lemma UpdateFieldInRange(d: Document, name: string, i: int, field: string, v: Value)
    requires SheetData(d, name).Some? && 0 <= i < |SheetData(d, name).value|
    ensures FieldUpdated(d, name, i, field, v).Ok?
    ensures
      var rows := SheetData(d, name).value;
      var d' := FieldUpdated(d, name, i, field, v).value;
      && SheetData(d', name).Some?
      && var rows' := SheetData(d', name).value;
      && |rows'| == |rows|
      && rows'[i][field] == v
      && (forall g :: g != field ==> (g in rows'[i] <==> g in rows[i]))
      && (forall g :: g != field && g in rows[i] ==> rows'[i][g] == rows[i][g])
      && (forall j :: 0 <= j < |rows| && j != i ==> rows'[j] == rows[j])
      && (forall n :: n != name ==> SheetData(d', n) == SheetData(d, n))
      && SheetsOf(d').order == SheetsOf(d).order
      && d'.metadata == d.metadata
  {
  }

  /**
   * An out-of-range `update_field` raises `IndexError`, also when the sheet
   * does not exist (it is then created only in the copy that is never written).
   */
  lemma UpdateFieldOutOfRange(d: Document, name: string, i: int, field: string, v: Value)
    requires SheetData(d, name).None? || !(0 <= i < |SheetData(d, name).value|)
    ensures FieldUpdated(d, name, i, field, v) == Err(IndexError(i))
  {
  }

  // ---------------------------------------------------------------------------
  // add_row

  /**
   * `add_row` appends the row as the last one of the sheet (an absent sheet
   * behaves as an empty one and is created), one row longer, earlier rows
   * unchanged, nothing else touched.
   */
  lemma AddRowAppends(d: Document, name: string, row: Row)
    ensures
      var before := SheetData(d, name).GetOr([]);
      var d' := RowAdded(d, name, row);
      && SheetData(d', name).Some?
      && var after := SheetData(d', name).value;
      && |after| == |before| + 1
      && after[|before|] == row
      && after[..|before|] == before
      && (forall n :: n != name ==> SheetData(d', n) == SheetData(d, n))
      && d'.metadata == d.metadata
  {
    var before := SheetData(d, name).GetOr([]);
    var after := SheetData(RowAdded(d, name, row), name).value;
    assert after == before + [row];
    assert after[..|before|] == before;
  }

  // ---------------------------------------------------------------------------
  // delete_row

  /** `delete_row` on a missing sheet raises `ValueError`, before the index is looked at. */
  lemma DeleteRowMissingSheet(d: Document, name: string, i: int)
    requires SheetData(d, name).None?
    ensures RowDeleted(d, name, i) == Err(ValueError(name))
  {
  }

  /** `delete_row` on an existing sheet with an out-of-range index raises `IndexError`. */
  lemma DeleteRowOutOfRange(d: Document, name: string, i: int)
    requires SheetData(d, name).Some? && !(0 <= i < |SheetData(d, name).value|)
    ensures RowDeleted(d, name, i) == Err(IndexError(i))
  {
  }

  /**
   * An in-range `delete_row` removes row `i`: one row fewer, the rows before
   * `i` unchanged, each later row moved one place to the front, nothing else
   * touched.
   */
  lemma DeleteRowShifts(d: Document, name: string, i: int)
    requires SheetData(d, name).Some? && 0 <= i < |SheetData(d, name).value|
    ensures RowDeleted(d, name, i).Ok?
    ensures
      var rows := SheetData(d, name).value;
      var d' := RowDeleted(d, name, i).value;
      && SheetData(d', name).Some?
      && var rows' := SheetData(d', name).value;
      && |rows'| == |rows| - 1
      && (forall j :: 0 <= j < i ==> rows'[j] == rows[j])
      && (forall j :: i <= j < |rows'| ==> rows'[j] == rows[j + 1])
      && (forall n :: n != name ==> SheetData(d', n) == SheetData(d, n))
      && d'.metadata == d.metadata
  {
  }

  /**
   * `add_row` followed by `delete_row` of the appended index gives back the
   * document, when the sheet existed before.
   */
  lemma AddThenDeleteRestores(d: Document, name: string, row: Row)
    requires SheetData(d, name).Some?
    ensures RowDeleted(RowAdded(d, name, row), name, |SheetData(d, name).value|) == Ok(d)
  {
    var rows := SheetData(d, name).value;
    var sheets := d.sheets.value;
    var added := RowAdded(d, name, row);
    assert added == d.(sheets := Some(Sheets(sheets.order, sheets.table[name := rows + [row]])));
    assert SheetData(added, name) == Some(rows + [row]);
    assert (rows + [row])[..|rows|] + (rows + [row])[|rows| + 1..] == rows;
    assert sheets.table[name := rows + [row]][name := rows] == sheets.table;
  }

  /**
   * When `add_row` created the sheet, deleting the appended row leaves that
   * sheet present but empty, and every other sheet as it was.
   */
  lemma AddThenDeleteOnNewSheet(d: Document, name: string, row: Row)
    requires SheetData(d, name).None?
    ensures RowDeleted(RowAdded(d, name, row), name, 0).Ok?
    ensures
      var d' := RowDeleted(RowAdded(d, name, row), name, 0).value;
      && SheetData(d', name) == Some([])
      && (forall n :: n != name ==> SheetData(d', n) == SheetData(d, n))
      && d'.metadata == d.metadata
  {
  }

  // ---------------------------------------------------------------------------
  // update_sheet_data and get_sheet_data

  /** `update_sheet_data` makes the sheet exactly `rows` and touches nothing else. */
  lemma UpdateSheetReplaces(d: Document, name: string, rows: seq<Row>)
    ensures SheetData(SheetReplaced(d, name, rows), name) == Some(rows)
    ensures forall n :: n != name ==> SheetData(SheetReplaced(d, name, rows), n) == SheetData(d, n)
    ensures SheetReplaced(d, name, rows).metadata == d.metadata
  {
  }

  // ---------------------------------------------------------------------------
  // save_excel_data

  /** After assigning the sheets `names`, each of them holds its new rows and every other sheet its old ones. */
  lemma {:induction false} PutAllLookup(base: Sheets, names: seq<string>, source: map<string, seq<Row>>, n: string)
    requires forall m :: m in names ==> m in source
    ensures PutAll(base, names, source).Lookup(n) == if n in names then Some(source[n]) else base.Lookup(n)
    decreases |names|
  {
    if names != [] {
      assert forall m :: m in names[1..] ==> m in names;
      PutAllLookup(base.Put(names[0], source[names[0]]), names[1..], source, n);
      assert n in names <==> n == names[0] || n in names[1..];
    }
  }

  /** Assigning sheets keeps the mapping well formed and keeps the existing sheets in their places. */
  lemma {:induction false} PutAllKeepsShape(base: Sheets, names: seq<string>, source: map<string, seq<Row>>)
    requires forall m :: m in names ==> m in source
    ensures base.WellFormed() ==> PutAll(base, names, source).WellFormed()
    ensures base.order <= PutAll(base, names, source).order
    decreases |names|
  {
    if names != [] {
      assert forall m :: m in names[1..] ==> m in names;
      PutAllKeepsShape(base.Put(names[0], source[names[0]]), names[1..], source);
    }
  }

  /**
   * `save_excel_data` replaces every sheet of `excel` by its rows, leaves every
   * other sheet alone, keeps existing sheets in their places, and sets the
   * metadata to exactly the save time and source file (dropping `created_at`).
   */
  lemma ExcelSavedEffect(d: Document, excel: Sheets, sourceFile: Option<string>, now: string)
    requires excel.WellFormed()
    ensures
      var d' := ExcelSaved(d, excel, sourceFile, now);
      && (forall n :: n in excel.table ==> SheetData(d', n) == Some(excel.table[n]))
      && (forall n :: n !in excel.table ==> SheetData(d', n) == SheetData(d, n))
      && SheetsOf(d).order <= SheetsOf(d').order
      && (d.WellFormed() ==> d'.WellFormed())
      && d'.metadata.Keys == {"last_updated", "source_file"}
      && "created_at" !in d'.metadata
      && d'.metadata["last_updated"] == Str(now)
      && d'.metadata["source_file"] == (if sourceFile.Some? then Str(sourceFile.value) else Null)
  {
    var d' := ExcelSaved(d, excel, sourceFile, now);
    forall n ensures SheetData(d', n) == if n in excel.table then Some(excel.table[n]) else SheetData(d, n) {
      PutAllLookup(SheetsOf(d), excel.order, excel.table, n);
    }
    PutAllKeepsShape(SheetsOf(d), excel.order, excel.table);
  }

  /** Saving one sheet into a fresh store gives a store holding just that sheet and the file name. */
  lemma SaveIntoFreshStore(name: string, rows: seq<Row>, file: string, now: string)
    ensures
      var d' := ExcelSaved(InitialDocument(), Sheets([name], map[name := rows]), Some(file), now);
      && d'.sheets == Some(Sheets([name], map[name := rows]))
      && d'.metadata == map["last_updated" := Str(now), "source_file" := Str(file)]
  {
    var excel := Sheets([name], map[name := rows]);
    assert excel.order[1..] == [];
    assert PutAll(NO_SHEETS, excel.order, excel.table) == NO_SHEETS.Put(name, rows);
    assert NO_SHEETS.order + [name] == [name];
    assert NO_SHEETS.table[name := rows] == excel.table;
  }
}
