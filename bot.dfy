/**
 * The decisions the chat handlers make around the store: whether a text
 * message is processed at all, whether the model's actions are applied,
 * whether an export was asked for, which sheet is exported, and whether an
 * uploaded file is accepted as an Excel workbook.
 */
module Bot {
  import opened Model
  import opened Text

  // ---------------------------------------------------------------------------
  // Guards on incoming messages

  /** `not query or query.strip() == ""`: such a text message is ignored. */
  predicate IsBlankQuery(query: string) {
    query == "" || Strip(query) == ""
  }

  /** A query is ignored exactly when it consists of whitespace only (or nothing). */
  lemma BlankQueryIffAllSpace(query: string)
    ensures IsBlankQuery(query) <==> forall k :: 0 <= k < |query| ==> IsSpace(query[k])
  {
    StripEmptyIffAllSpace(query);
  }

  /** The upload check: the lower-cased file name ends with `.xlsx` or `.xls`. */
  predicate IsExcelFileName(fileName: string) {
    var name := Lower(fileName);
    EndsWith(name, ".xlsx") || EndsWith(name, ".xls")
  }

  /** The upload check ignores case (for the scripts `Lower` covers). */
  lemma ExcelFileNameIgnoresCase(fileName: string)
    ensures IsExcelFileName(Lower(fileName)) == IsExcelFileName(fileName)
  {
    LowerIdempotent(fileName);
  }

  /** Upper- and mixed-case `.XLSX` and `.XLS` names are accepted. */
  lemma ExcelFileNamesAccepted()
    ensures IsExcelFileName("Report.XLSX")
    ensures IsExcelFileName("old.Xls")
  {
    assert Lower("Report.XLSX")[6..] == ".xlsx";
    assert Lower("old.Xls")[3..] == ".xls";
  }

  /** `.csv` and macro-enabled `.xlsm` names are refused. */
  lemma ExcelFileNamesRefused()
    ensures !IsExcelFileName("data.csv")
    ensures !IsExcelFileName("macro.xlsm")
  {
    assert Lower("data.csv")[7] == 'v';
    assert Lower("macro.xlsm")[9] == 'm';
  }

  // ---------------------------------------------------------------------------
  // Applying and exporting

  /** `needs_update and update_actions`: the actions are applied when this holds. */
  predicate ShouldApply(needsUpdate: bool, updateActions: seq<ActionEntry>) {
    needsUpdate && |updateActions| > 0
  }

  /** The keywords whose presence in the lower-cased query asks for an export. */
  const EXPORT_KEYWORDS: seq<string> :=
    ["экспорт", "экспортировать", "скачать", "выгрузить", "excel", "export", "отправь файл", "дай файл"]

  /** `any(keyword in text for keyword in keywords)`. */
  function AnyKeywordIn(keywords: seq<string>, text: string): (r: bool)
    ensures r <==> exists k :: 0 <= k < |keywords| && IsSubstring(keywords[k], text)
  {
    if keywords == [] then false
    else IsSubstring(keywords[0], text) || AnyKeywordIn(keywords[1..], text)
  }

  /** Whether the query asks for an export file. */
  predicate ExportRequested(query: string) {
    AnyKeywordIn(EXPORT_KEYWORDS, Lower(query))
  }

  /** `should_export`: an export was asked for, or actions were applied. */
  predicate ShouldExport(query: string, needsUpdate: bool, updateActions: seq<ActionEntry>) {
    ExportRequested(query) || ShouldApply(needsUpdate, updateActions)
  }

  /** Export detection ignores case: the query and its lower-cased form agree. */
  lemma ExportRequestedIgnoresCase(query: string)
    ensures ExportRequested(Lower(query)) == ExportRequested(query)
  {
    LowerIdempotent(query);
  }

  /** Export is asked for exactly when one of the keywords occurs in the lower-cased query. */
  lemma ExportRequestedIffKeyword(query: string)
    ensures ExportRequested(query) <==>
      exists k, i :: 0 <= k < |EXPORT_KEYWORDS| && OccursAt(EXPORT_KEYWORDS[k], Lower(query), i)
  {
    var text := Lower(query);
    forall k | 0 <= k < |EXPORT_KEYWORDS|
      ensures IsSubstring(EXPORT_KEYWORDS[k], text) <==> exists i :: OccursAt(EXPORT_KEYWORDS[k], text, i)
    {
      IsSubstringIffOccurs(EXPORT_KEYWORDS[k], text);
    }
  }

  /** "EXPORT", in capitals and with no actions at all, still produces an export. */
  lemma UpperCaseExportWithoutActions()
    ensures ExportRequested("EXPORT")
    ensures ShouldExport("EXPORT", false, [])
  {
    assert Lower("EXPORT") == "export";
    IsSubstringOfSelf("export");
    assert EXPORT_KEYWORDS[5] == "export";
  }

  /**
   * An export happens exactly when a keyword occurs in the lower-cased query
   * or the model asked for updates and gave at least one action.
   */
  lemma ShouldExportIff(query: string, needsUpdate: bool, updateActions: seq<ActionEntry>)
    ensures ShouldExport(query, needsUpdate, updateActions) <==>
      || (exists k, i :: 0 <= k < |EXPORT_KEYWORDS| && OccursAt(EXPORT_KEYWORDS[k], Lower(query), i))
      || (needsUpdate && updateActions != [])
  {
    ExportRequestedIffKeyword(query);
  }

  /** Without an export keyword, an export happens only because actions were applied. */
  lemma ExportWithoutKeywordMeansUpdates(query: string, needsUpdate: bool, updateActions: seq<ActionEntry>)
    requires ShouldExport(query, needsUpdate, updateActions) && !ExportRequested(query)
    ensures needsUpdate && updateActions != []
  {
  }

  // ---------------------------------------------------------------------------
  // Which sheet is exported

  /** The position of the first action that has a `sheet_name` key (any value), or `|actions|`. */
  function FirstWithSheetKey(actions: seq<ActionEntry>): (k: nat)
    ensures k <= |actions|
    ensures forall j :: 0 <= j < k ==> actions[j].sheetName.Missing?
    ensures k < |actions| ==> !actions[k].sheetName.Missing?
  {
    if actions == [] then 0
    else if !actions[0].sheetName.Missing? then 0
    else 1 + FirstWithSheetKey(actions[1..])
  }

  /** The position of the first sheet whose lower-cased name occurs in `lowerQuery`, or `|names|`. */
  function FirstMentioned(names: seq<string>, lowerQuery: string): (k: nat)
    ensures k <= |names|
    ensures forall j :: 0 <= j < k ==> !IsSubstring(Lower(names[j]), lowerQuery)
    ensures k < |names| ==> IsSubstring(Lower(names[k]), lowerQuery)
  {
    if names == [] then 0
    else if IsSubstring(Lower(names[0]), lowerQuery) then 0
    else 1 + FirstMentioned(names[1..], lowerQuery)
  }

  /** The `sheet_name` value the loop over the actions takes: that of the first action with the key. */
  function SheetNameFromActions(actions: seq<ActionEntry>): Option<string> {
    var k := FirstWithSheetKey(actions);
    if k < |actions| then actions[k].sheetName.Get() else None
  }

  /** The sheet the loop over the sheets takes: the first one the query mentions. */
  function SheetNameFromQuery(names: seq<string>, query: string): Option<string> {
    var k := FirstMentioned(names, Lower(query));
    if k < |names| then Some(names[k]) else None
  }

  /**
   * The sheet exported, `None` for no export: the sheet named by the actions,
   * else the one the query mentions, else the first sheet; a name that is
   * empty counts as no name at every step.
   */
  function ExportSheet(actions: seq<ActionEntry>, names: seq<string>, query: string): Option<string> {
    var fromActions := SheetNameFromActions(actions);
    var fromQuery := SheetNameFromQuery(names, query);
    if IsTruthy(fromActions) then fromActions
    else if IsTruthy(fromQuery) then fromQuery
    else if |names| > 0 && names[0] != "" then Some(names[0])
    else None
  }

  /**
   * The selection of `handle_text_message`: `sheetNames` are the sheets of the
   * document as re-read after the updates, in document order. The result is
   * the final `sheet_name`; the export happens when it is truthy.
   */
  method SelectSheet(updateActions: seq<ActionEntry>, sheetNames: seq<string>, query: string)
    returns (sheetName: Option<string>)
    ensures IsTruthy(sheetName) <==> ExportSheet(updateActions, sheetNames, query).Some?
    ensures IsTruthy(sheetName) ==> sheetName == ExportSheet(updateActions, sheetNames, query)
  {
    sheetName := None;
    var i := 0;
    while i < |updateActions|
      invariant 0 <= i <= |updateActions|
      invariant forall j :: 0 <= j < i ==> updateActions[j].sheetName.Missing?
      invariant sheetName == None
    {
      if !updateActions[i].sheetName.Missing? {
        sheetName := updateActions[i].sheetName.Get();
        break;
      }
      i := i + 1;
    }
    assert sheetName == SheetNameFromActions(updateActions);
    if !IsTruthy(sheetName) {
      var lowerQuery := Lower(query);
      var j := 0;
      while j < |sheetNames|
        invariant 0 <= j <= |sheetNames|
        invariant forall m :: 0 <= m < j ==> !IsSubstring(Lower(sheetNames[m]), lowerQuery)
        invariant !IsTruthy(sheetName)
      {
        if IsSubstring(Lower(sheetNames[j]), lowerQuery) {
          sheetName := Some(sheetNames[j]);
          break;
        }
        j := j + 1;
      }
      if !IsTruthy(sheetName) && |sheetNames| > 0 {
        sheetName := Some(sheetNames[0]);
      }
    }
  }

  /** A truthy `sheet_name` on the first action that has the key decides the sheet, existing or not. */
  lemma ExportSheetFromActions(actions: seq<ActionEntry>, names: seq<string>, query: string, k: nat)
    requires k < |actions| && (forall j :: 0 <= j < k ==> actions[j].sheetName.Missing?)
    requires actions[k].sheetName.Given? && actions[k].sheetName.value != ""
    ensures ExportSheet(actions, names, query) == Some(actions[k].sheetName.value)
  {
    assert FirstWithSheetKey(actions) == k;
  }

  /**
   * Otherwise the first sheet, in document order, whose lower-cased name
   * occurs in the lower-cased query is exported, when its name is not empty.
   */
  lemma ExportSheetFromQuery(actions: seq<ActionEntry>, names: seq<string>, query: string, k: nat)
    requires !IsTruthy(SheetNameFromActions(actions))
    requires k < |names| && names[k] != "" && IsSubstring(Lower(names[k]), Lower(query))
    requires forall j :: 0 <= j < k ==> !IsSubstring(Lower(names[j]), Lower(query))
    ensures ExportSheet(actions, names, query) == Some(names[k])
  {
    assert FirstMentioned(names, Lower(query)) == k;
  }

  /** When neither the actions nor the query name a sheet, the first sheet is exported. */
  lemma ExportSheetFallsBackToFirst(actions: seq<ActionEntry>, names: seq<string>, query: string)
    requires !IsTruthy(SheetNameFromActions(actions))
    requires forall j :: 0 <= j < |names| ==> !IsSubstring(Lower(names[j]), Lower(query))
    requires |names| > 0 && names[0] != ""
    ensures ExportSheet(actions, names, query) == Some(names[0])
  {
    assert FirstMentioned(names, Lower(query)) == |names|;
  }

  /**
   * With no sheet named by the actions and a first sheet with a name, one of
   * the document's sheets is always exported.
   */
  lemma ExportSheetWithoutActionName(actions: seq<ActionEntry>, names: seq<string>, query: string)
    requires !IsTruthy(SheetNameFromActions(actions))
    requires names != [] && names[0] != ""
    ensures ExportSheet(actions, names, query).Some?
    ensures ExportSheet(actions, names, query).value in names
  {
    var k := FirstMentioned(names, Lower(query));
    if k < |names| {
      assert names[k] in names;
    }
  }

  /** With no sheet named by the actions and no sheets in the document, nothing is exported. */
  lemma NoSheetsNoExport(actions: seq<ActionEntry>, query: string)
    requires !IsTruthy(SheetNameFromActions(actions))
    ensures ExportSheet(actions, [], query) == None
  {
  }

  /**
   * The exported sheet always has a non-empty name, and is a sheet of the
   * document unless an action named it.
   */
  lemma ExportSheetIsNamed(actions: seq<ActionEntry>, names: seq<string>, query: string)
    requires ExportSheet(actions, names, query).Some?
    ensures ExportSheet(actions, names, query).value != ""
    ensures ExportSheet(actions, names, query).value in names ||
      exists k :: 0 <= k < |actions| && actions[k].sheetName == Given(ExportSheet(actions, names, query).value)
  {
    var k := FirstWithSheetKey(actions);
    if IsTruthy(SheetNameFromActions(actions)) {
      assert actions[k].sheetName == Given(ExportSheet(actions, names, query).value);
    }
  }
}
