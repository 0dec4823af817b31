/**
 * The values the document store and the bot exchange: cell values, rows,
 * the ordered sheet mapping, the persisted document, the store's errors, and
 * the edit actions and decisions proposed by the language model.
 */
module Model {

  datatype Option<T> = None | Some(value: T) {
    function GetOr(default: T): T {
      match this
      case Some(v) => v
      case None => default
    }
  }

  /** A scalar cell value as JSON holds it; `Null` is JSON `null` (Python `None`). */
  datatype Value = Null | Bool(b: bool) | Int(i: int) | Real(r: real) | Str(s: string)

  /** A row: column name to cell value. No fixed schema. */
  type Row = map<string, Value>

  /**
   * A Python dict from sheet name to rows, keeping insertion order:
   * `order` lists the keys in the order they were first inserted, `table`
   * holds the rows of each key.
   */
  datatype Sheets = Sheets(order: seq<string>, table: map<string, seq<Row>>) {

    /** Every name appears once in `order`, and exactly the names of `table` appear there. */
    ghost predicate WellFormed() {
      && (forall i, j :: 0 <= i < j < |order| ==> order[i] != order[j])
      && (forall n :: n in table <==> n in order)
    }

    /** `sheets.get(name)`. */
    function Lookup(name: string): (r: Option<seq<Row>>)
      ensures r.Some? <==> name in table
    {
      if name in table then Some(table[name]) else None
    }

    /**
     * `sheets[name] = rows`: an existing key keeps its position, a new key
     * goes last.
     */
    function Put(name: string, rows: seq<Row>): (r: Sheets)
      ensures WellFormed() ==> r.WellFormed()
      ensures r.Lookup(name) == Some(rows)
      ensures forall n :: n != name ==> r.Lookup(n) == Lookup(n)
      ensures order <= r.order
    {
      if name in table then Sheets(order, table[name := rows])
      else Sheets(order + [name], table[name := rows])
    }
  }

  /** The empty Python dict `{}`. */
  const NO_SHEETS := Sheets([], map[])

  /**
   * The content of the database file: the "sheets" mapping (absent when the
   * file has no "sheets" key) and the "metadata" mapping.
   */
  datatype Document = Document(sheets: Option<Sheets>, metadata: map<string, Value>) {
    ghost predicate WellFormed() {
      sheets.Some? ==> sheets.value.WellFormed()
    }
  }

  /** The exceptions the store raises: `IndexError` for a bad row index, `ValueError` for a missing sheet. */
  datatype StoreError = IndexError(rowIndex: int) | ValueError(sheetName: string)

  /** A store operation either returns normally or raises. */
  datatype Outcome = Pass | Fail(error: StoreError)

  datatype Result<T> = Ok(value: T) | Err(error: StoreError)

  /**
   * A key of a JSON object as Python's `in` and `.get` see it: missing, present
   * with `null`, or present with a value.
   */
  datatype Slot<T> = Missing | NullValue | Given(value: T) {
    /** `obj.get(key)`: `None` both for a missing key and for `null`. */
    function Get(): Option<T> {
      if Given? then Some(value) else None
    }
  }

  /**
   * One entry of `update_actions`, a JSON object. Each field is what
   * `action.get(key)` returns (`None` for a missing key or `null`), except
   * `sheetName`, whose presence as a key is tested on its own; a missing or
   * null `new_value` is `Null`.
   */
  datatype ActionEntry = ActionEntry(
    action: Option<string>,
    sheetName: Slot<string>,
    rowIndex: Option<int>,
    fieldName: Option<string>,
    newValue: Value,
    rowData: Option<Row>,
    sheetData: Option<seq<Row>>)

  /** The model's decision: reply text (absent when the JSON has no "response"), the update flag, the actions. */
  datatype Decision = Decision(response: Option<string>, needsUpdate: bool, updateActions: seq<ActionEntry>)

  /** Python truthiness of an optional string: neither `None` nor `""`. */
  predicate IsTruthy(s: Option<string>) {
    s.Some? && s.value != ""
  }
}
