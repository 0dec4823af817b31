/**
 * The JSON document store as an object. The database file is the field
 * `doc`: `Read` returns it and `Write` replaces it, so each operation reads
 * the whole document, changes its own copy and writes it back only when it
 * does not raise.
 */
module JsonDb {
  import opened Model
  import opened Store

  class JsonDB {
    /** The content of the database file. */
    var doc: Document

    ghost predicate Valid()
      reads this
    {
      doc.WellFormed()
    }

    /**
     * Opening a store: `existing` is the file found at the path. When there is
     * none, the file is created holding the empty document.
     */
    constructor (existing: Option<Document>)
      requires existing.Some? ==> existing.value.WellFormed()
      ensures Valid()
      ensures existing.None? ==> doc == InitialDocument()
      ensures existing.Some? ==> doc == existing.value
    {
      if existing.None? {
        doc := InitialDocument();
      } else {
        doc := existing.value;
      }
    }

    /** `read`: the whole document. */
    method Read() returns (d: Document)
      ensures d == doc
    {
      d := doc;
    }

    /** `write`: replaces the whole document. */
    method Write(d: Document)
      modifies this
      ensures doc == d
    {
      doc := d;
    }

    /**
     * `save_excel_data`: every sheet of `excelData` is assigned its rows, in
     * the order of `excelData`, then the metadata is replaced.
     */
    method SaveExcelData(excelData: Sheets, sourceFile: Option<string>, now: string)
      requires Valid() && excelData.WellFormed()
      modifies this
      ensures Valid()
      ensures doc == ExcelSaved(old(doc), excelData, sourceFile, now)
    {
      var db := Read();
      var sheets := SheetsOf(db);
      var names := excelData.order;
      var i := 0;
      while i < |names|
        invariant 0 <= i <= |names|
        invariant sheets.WellFormed()
        invariant PutAll(sheets, names[i..], excelData.table) == PutAll(SheetsOf(db), names, excelData.table)
      {
        var name := names[i];
        assert names[i..][1..] == names[i + 1..];
        sheets := sheets.Put(name, excelData.table[name]);
        i := i + 1;
      }
      Write(Document(Some(sheets), SavedMetadata(sourceFile, now)));
    }

    /** `get_sheet_data`: the rows of the sheet, or `None` when it does not exist. */
    method GetSheetData(sheetName: string) returns (r: Option<seq<Row>>)
      ensures r == SheetData(doc, sheetName)
      ensures r.Some? <==> doc.sheets.Some? && sheetName in doc.sheets.value.table
      ensures r.Some? ==> r.value == doc.sheets.value.table[sheetName]
    {
      var db := Read();
      if db.sheets.Some? && sheetName in db.sheets.value.table {
        r := Some(db.sheets.value.table[sheetName]);
      } else {
        r := None;
      }
    }

    /** `update_sheet_data`: the sheet becomes exactly `data`, created if absent. */
    method UpdateSheetData(sheetName: string, data: seq<Row>)
      requires Valid()
      modifies this
      ensures Valid()
      ensures doc == SheetReplaced(old(doc), sheetName, data)
    {
      var db := Read();
      var sheets := SheetsOf(db);
      sheets := sheets.Put(sheetName, data);
      Write(db.(sheets := Some(sheets)));
    }

    /**
     * `update_field`: sets one cell. The sheet is created empty in the local
     * copy when absent; an index outside the rows raises `IndexError` and
     * nothing is written.
     */
    method UpdateField(sheetName: string, rowIndex: int, fieldName: string, newValue: Value) returns (r: Outcome)
      requires Valid()
      modifies this
      ensures Valid()
      ensures r.Pass? <==> 0 <= rowIndex < |SheetData(old(doc), sheetName).GetOr([])|
      ensures r.Pass? ==> doc == FieldUpdated(old(doc), sheetName, rowIndex, fieldName, newValue).value
      ensures r.Fail? ==> r.error == IndexError(rowIndex) && doc == old(doc)
    {
      var db := Read();
      var sheets := SheetsOf(db);
      if sheetName !in sheets.table {
        sheets := sheets.Put(sheetName, []);
      }
      var sheetData := sheets.table[sheetName];
      if 0 <= rowIndex < |sheetData| {
        sheetData := sheetData[rowIndex := sheetData[rowIndex][fieldName := newValue]];
        sheets := sheets.Put(sheetName, sheetData);
        Write(db.(sheets := Some(sheets)));
        r := Pass;
      } else {
        r := Fail(IndexError(rowIndex));
      }
    }

    /** `add_row`: appends the row to the sheet, created empty first if absent. Never raises. */
    method AddRow(sheetName: string, rowData: Row)
      requires Valid()
      modifies this
      ensures Valid()
      ensures doc == RowAdded(old(doc), sheetName, rowData)
    {
      var db := Read();
      var sheets := SheetsOf(db);
      if sheetName !in sheets.table {
        sheets := sheets.Put(sheetName, []);
      }
      sheets := sheets.Put(sheetName, sheets.table[sheetName] + [rowData]);
      assert sheets.table == SheetsOf(db).table[sheetName := SheetData(db, sheetName).GetOr([]) + [rowData]];
      Write(db.(sheets := Some(sheets)));
    }

    /**
     * `delete_row`: removes one row. A missing sheet raises `ValueError`, an
     * index outside the rows `IndexError`; neither writes.
     */
    method DeleteRow(sheetName: string, rowIndex: int) returns (r: Outcome)
      requires Valid()
      modifies this
      ensures Valid()
      ensures r.Pass? <==> RowDeleted(old(doc), sheetName, rowIndex).Ok?
      ensures r.Pass? ==> doc == RowDeleted(old(doc), sheetName, rowIndex).value
      ensures r.Fail? ==> r.error == RowDeleted(old(doc), sheetName, rowIndex).error && doc == old(doc)
    {
      var db := Read();
      var sheets := SheetsOf(db);
      if sheetName !in sheets.table {
        return Fail(ValueError(sheetName));
      }
      var sheetData := sheets.table[sheetName];
      if 0 <= rowIndex < |sheetData| {
        sheetData := sheetData[..rowIndex] + sheetData[rowIndex + 1..];
        sheets := sheets.Put(sheetName, sheetData);
        Write(db.(sheets := Some(sheets)));
        r := Pass;
      } else {
        r := Fail(IndexError(rowIndex));
      }
    }
  }
}
