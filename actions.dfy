/**
 * Applying the edit actions proposed by the language model to the store
 * (`apply_updates`): each action runs in list order against the store as the
 * previous ones left it; an action without a truthy sheet name, with an
 * unknown kind or with missing or empty payload fields does nothing; the
 * first action that raises stops the batch and its error is re-raised, with
 * the earlier actions' writes kept.
 */
module Actions {
  import opened Model
  import opened Store
  import opened JsonDb
  import opened Bot

  /** What one action does to the document: the document written, or the error raised. */
  function ApplyEntry(d: Document, a: ActionEntry): Result<Document> {
    var sheetName := a.sheetName.Get();
    if !IsTruthy(sheetName) then Ok(d)
    else if a.action == Some("update_field") then
      if a.rowIndex.Some? && IsTruthy(a.fieldName) && a.newValue != Null then
        FieldUpdated(d, sheetName.value, a.rowIndex.value, a.fieldName.value, a.newValue)
      else Ok(d)
    else if a.action == Some("add_row") then
      if a.rowData.Some? && |a.rowData.value| > 0 then Ok(RowAdded(d, sheetName.value, a.rowData.value))
      else Ok(d)
    else if a.action == Some("delete_row") then
      if a.rowIndex.Some? then RowDeleted(d, sheetName.value, a.rowIndex.value)
      else Ok(d)
    else if a.action == Some("update_sheet") then
      if a.sheetData.Some? && |a.sheetData.value| > 0 then Ok(SheetReplaced(d, sheetName.value, a.sheetData.value))
      else Ok(d)
    else Ok(d)
  }

  /** The store's final document and whether the batch ended normally or with a raised error. */
  datatype Applied = Applied(doc: Document, outcome: Outcome)

  /** The whole batch, in order, stopping at the first error. */
  function ApplyAll(d: Document, actions: seq<ActionEntry>): Applied
    decreases |actions|
  {
    if actions == [] then Applied(d, Pass)
    else
      match ApplyEntry(d, actions[0])
      case Err(e) => Applied(d, Fail(e))
      case Ok(d') => ApplyAll(d', actions[1..])
  }

  /** `apply_updates(update_actions)` against the store `db`. */
  method ApplyUpdates(db: JsonDB, updateActions: seq<ActionEntry>) returns (r: Outcome)
    requires db.Valid()
    modifies db
    ensures db.Valid()
    ensures Applied(db.doc, r) == ApplyAll(old(db.doc), updateActions)
  {
    var i := 0;
    while i < |updateActions|
      invariant 0 <= i <= |updateActions|
      invariant db.Valid()
      invariant ApplyAll(db.doc, updateActions[i..]) == ApplyAll(old(db.doc), updateActions)
    {
      var action := updateActions[i];
      assert updateActions[i..][1..] == updateActions[i + 1..];
      var actionType := action.action;
      var sheetName := action.sheetName.Get();
      if !IsTruthy(sheetName) {
        i := i + 1;
        continue;
      }
      var outcome := Pass;
      if actionType == Some("update_field") {
        var rowIndex, fieldName, newValue := action.rowIndex, action.fieldName, action.newValue;
        if rowIndex.Some? && IsTruthy(fieldName) && newValue != Null {
          outcome := db.UpdateField(sheetName.value, rowIndex.value, fieldName.value, newValue);
        }
      } else if actionType == Some("add_row") {
        var rowData := action.rowData;
        if rowData.Some? && |rowData.value| > 0 {
          db.AddRow(sheetName.value, rowData.value);
        }
      } else if actionType == Some("delete_row") {
        var rowIndex := action.rowIndex;
        if rowIndex.Some? {
          outcome := db.DeleteRow(sheetName.value, rowIndex.value);
        }
      } else if actionType == Some("update_sheet") {
        var sheetData := action.sheetData;
        if sheetData.Some? && |sheetData.value| > 0 {
          db.UpdateSheetData(sheetName.value, sheetData.value);
        }
      }
      if outcome.Fail? {
        return outcome;
      }
      i := i + 1;
    }
    r := Pass;
  }

  // ---------------------------------------------------------------------------
  // Which entries are skipped

  /** An action whose `sheet_name` is missing, null or empty is skipped, whatever else it holds. */
  lemma UnnamedActionSkipped(d: Document, a: ActionEntry, rest: seq<ActionEntry>)
    requires !IsTruthy(a.sheetName.Get())
    ensures ApplyEntry(d, a) == Ok(d)
    ensures ApplyAll(d, [a] + rest) == ApplyAll(d, rest)
  {
    assert ([a] + rest)[1..] == rest;
  }

  /**
   * A named `update_field` acts exactly when `row_index` is given, `field_name`
   * is non-empty and `new_value` is not null; otherwise it does nothing.
   */
  lemma UpdateFieldGuard(d: Document, a: ActionEntry)
    requires IsTruthy(a.sheetName.Get()) && a.action == Some("update_field")
    ensures ApplyEntry(d, a) ==
      if a.rowIndex.Some? && a.fieldName.Some? && a.fieldName.value != "" && a.newValue != Null
      then FieldUpdated(d, a.sheetName.value, a.rowIndex.value, a.fieldName.value, a.newValue)
      else Ok(d)
  {
  }

  /**
   * `add_row` without a non-empty `row_data`, and `update_sheet` without a
   * non-empty `sheet_data`, do nothing: an `update_sheet` with `[]` cannot
   * clear a sheet.
   */
  lemma EmptyPayloadIsNoOp(d: Document, a: ActionEntry)
    requires
      || (a.action == Some("add_row") && (a.rowData.None? || a.rowData.value == map[]))
      || (a.action == Some("update_sheet") && (a.sheetData.None? || a.sheetData.value == []))
    ensures ApplyEntry(d, a) == Ok(d)
  {
  }

  /** A `delete_row` without `row_index` does nothing. */
  lemma DeleteWithoutIndexIsNoOp(d: Document, a: ActionEntry)
    requires a.action == Some("delete_row") && a.rowIndex.None?
    ensures ApplyEntry(d, a) == Ok(d)
  {
  }

  /** An action of any other kind does nothing. */
  lemma UnknownActionIsNoOp(d: Document, a: ActionEntry)
    requires a.action !in {Some("update_field"), Some("add_row"), Some("delete_row"), Some("update_sheet")}
    ensures ApplyEntry(d, a) == Ok(d)
  {
  }

  // ---------------------------------------------------------------------------
  // Order, abort and no rollback

  /**
   * A batch is its first part followed by its second part run on what the
   * first part left, unless the first part raised, in which case the second
   * part does not run at all.
   */
  lemma {:induction false} ApplyAllAppend(d: Document, xs: seq<ActionEntry>, ys: seq<ActionEntry>)
    ensures ApplyAll(d, xs + ys) ==
      var first := ApplyAll(d, xs);
      if first.outcome.Pass? then ApplyAll(first.doc, ys) else first
    decreases |xs|
  {
    if xs == [] {
      assert xs + ys == ys;
    } else {
      assert (xs + ys)[0] == xs[0];
      assert (xs + ys)[1..] == xs[1..] + ys;
      match ApplyEntry(d, xs[0])
      case Err(e) =>
      case Ok(d') => ApplyAllAppend(d', xs[1..], ys);
    }
  }

  /**
   * When the actions `xs` succeed and the next action `a` raises, the batch
   * re-raises that error, the effects of `xs` stay in the store, and nothing
   * after `a` is applied.
   */
  lemma FirstErrorAbortsWithoutRollback(d: Document, xs: seq<ActionEntry>, a: ActionEntry, ys: seq<ActionEntry>)
    requires ApplyAll(d, xs).outcome.Pass?
    requires ApplyEntry(ApplyAll(d, xs).doc, a).Err?
    ensures ApplyAll(d, xs + [a] + ys) ==
      Applied(ApplyAll(d, xs).doc, Fail(ApplyEntry(ApplyAll(d, xs).doc, a).error))
  {
    ApplyAllAppend(d, xs, [a] + ys);
    assert xs + [a] + ys == xs + ([a] + ys);
    assert ([a] + ys)[0] == a;
  }

  /** Each action sees the document the previous action wrote. */
  lemma ActionsSeePreviousEffects(d: Document, a: ActionEntry, rest: seq<ActionEntry>)
    requires ApplyEntry(d, a).Ok?
    ensures ApplyAll(d, [a] + rest) == ApplyAll(ApplyEntry(d, a).value, rest)
  {
    assert ([a] + rest)[0] == a;
    assert ([a] + rest)[1..] == rest;
  }

  /**
   * On an empty sheet, adding a row and then deleting row 0 deletes the row
   * just added: the batch succeeds and the document is as before.
   */
  lemma AddThenDeleteFirstRow(d: Document, name: string, row: Row)
    requires name != "" && SheetData(d, name) == Some([]) && row != map[]
    ensures
      var add := ActionEntry(Some("add_row"), Given(name), None, None, Null, Some(row), None);
      var del := ActionEntry(Some("delete_row"), Given(name), Some(0), None, Null, None, None);
      ApplyAll(d, [add, del]) == Applied(d, Pass)
  {
    var add := ActionEntry(Some("add_row"), Given(name), None, None, Null, Some(row), None);
    var del := ActionEntry(Some("delete_row"), Given(name), Some(0), None, Null, None, None);
    var d1 := RowAdded(d, name, row);
    assert ApplyEntry(d, add) == Ok(d1);
    AddThenDeleteRestores(d, name, row);
    assert RowDeleted(d1, name, 0) == Ok(d);
    assert ApplyEntry(d1, del) == Ok(d);
    assert [add, del][1..] == [del];
    assert ApplyAll(d1, [del]) == ApplyAll(d, []);
  }

  // ---------------------------------------------------------------------------
  // The sheet exported after a batch

  /** One action keeps the document well formed. */
  lemma ApplyEntryKeepsWellFormed(d: Document, a: ActionEntry)
    requires d.WellFormed()
    ensures ApplyEntry(d, a).Ok? ==> ApplyEntry(d, a).value.WellFormed()
  {
  }

  /** A batch keeps the document well formed: sheet names stay distinct and in their order. */
  lemma {:induction false} ApplyAllKeepsWellFormed(d: Document, actions: seq<ActionEntry>)
    requires d.WellFormed()
    ensures ApplyAll(d, actions).doc.WellFormed()
    decreases |actions|
  {
    if actions != [] {
      ApplyEntryKeepsWellFormed(d, actions[0]);
      match ApplyEntry(d, actions[0])
      case Err(e) =>
      case Ok(d') => ApplyAllKeepsWellFormed(d', actions[1..]);
    }
  }

  /**
   * The sheet chosen for export from the document as the batch left it, with
   * its sheets in document order: its name is not empty, and it is a sheet of
   * that document unless one of the actions named it. When no action names a
   * sheet, the document has sheets and the first has a name, some sheet of the
   * document is chosen.
   */
  lemma ExportAfterUpdates(d: Document, actions: seq<ActionEntry>, query: string)
    requires d.WellFormed()
    ensures
      var after := SheetsOf(ApplyAll(d, actions).doc);
      var chosen := ExportSheet(actions, after.order, query);
      && (chosen.Some? ==>
            && chosen.value != ""
            && (|| chosen.value in after.table
                || exists k :: 0 <= k < |actions| && actions[k].sheetName == Given(chosen.value)))
      && (!IsTruthy(SheetNameFromActions(actions)) && after.order != [] && after.order[0] != "" ==>
            chosen.Some? && chosen.value in after.table)
  {
    var after := SheetsOf(ApplyAll(d, actions).doc);
    ApplyAllKeepsWellFormed(d, actions);
    assert forall n :: n in after.order ==> n in after.table;
    var chosen := ExportSheet(actions, after.order, query);
    if chosen.Some? {
      ExportSheetIsNamed(actions, after.order, query);
    }
    if !IsTruthy(SheetNameFromActions(actions)) && after.order != [] && after.order[0] != "" {
      ExportSheetWithoutActionName(actions, after.order, query);
    }
  }
}
