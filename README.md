# Excel bot core in Dafny

A model of the logic of a Telegram bot that keeps Excel data in a JSON
document and lets a language model propose edits to it.

- **The document store** (`JsonDB`). The document maps sheet names, in
  insertion order, to lists of rows. A row maps column names to scalar values.
  The document also holds a metadata map. Every operation reads the whole
  document, changes its copy, and writes the copy back only if nothing was
  raised.
- **Applying the model's edit actions** (`apply_updates`). Four action kinds
  exist: `update_field`, `add_row`, `delete_row` and `update_sheet`. Actions
  run in list order. An action without a sheet name, or without its payload,
  does nothing. The first error raised stops the batch, and the earlier
  effects stay written.
- **The chat handler's decisions.** This covers:
  - the blank-query guard;
  - the `.xlsx`/`.xls` upload check;
  - export-keyword detection and the `should_export` rule;
  - the three-step choice of the sheet to export.
- **The language-model adapter's plain computation.** This covers:
  - the delimiter framing of the serialized document in the prompt;
  - taking the JSON candidate from the first `{` to the last `}` of the reply;
  - the plain-text and error fallbacks;
  - projecting the document onto the exported sheet.

Modules, leaf first:

- `Text` (`text.dfy`): the Python string built-ins used by the bot. These are
  `isspace`, `strip`, `lower`, one-character `find`/`rfind`, the substring
  `in`, and `endswith`.
- `Model` (`model.dfy`): cell values, rows, the ordered sheet mapping
  (`Sheets`: a key order plus a table), the document, store errors, action
  entries and the model's decision.
- `Store` (`store.dfy`): each store operation's effect on the document, as a
  pure function, with its properties as lemmas.
- `JsonDb` (`json_db.dfy`): class `JsonDB`. Its field `doc` is the content of
  the database file. `Read` returns it and `Write` replaces it. Each method's
  contract ties the new `doc` to the pure function in `Store`.
- `Actions` (`actions.dfy`): `ApplyAll`, the specification of a batch, and
  `ApplyUpdates`, the loop over a `JsonDB`, proved equal to it.
- `Bot` (`bot.py` decisions) and `MistralAi` (`mistral_ai.py` computation).

A raised Python exception appears as a value:

- a store error is `Fail(IndexError(i))` or `Fail(ValueError(name))` from a
  method, or `Err(...)` from a function;
- an exception from the model call is the `Raised` reply.

JSON decoding of the model's reply is a function parameter
`decode: string -> Option<Decision>`, where `None` stands for
`JSONDecodeError`. The JSON serialization of the document is an opaque string.
The timestamp `datetime.now().isoformat()` is a string parameter `now`.

Behaviours of the code worth noting:

- The exported sheet comes from the first action that has a `sheet_name` key,
  whatever its value. If that value is null or empty, the search moves on to
  the query. It does not settle on a later action that has a proper name.
- Opening a store whose file is absent creates the file with the empty
  document.
- Not every malformed action is skipped. An action that names a sheet with an
  out-of-range `row_index` raises and stops the batch, and so does a
  `delete_row` on a sheet that does not exist.
- An action without a sheet name is skipped before its kind is looked at.

## Model

| member | source | states |
|---|---|---|
| JsonDb.JsonDB.constructor | json_db.py:10-17 | With no file present, the store starts from the document with an empty sheet mapping and metadata `created_at` and `last_updated` set to null. An existing file is used as it is. |
| JsonDb.JsonDB.Read | json_db.py:24-31 | Returns the whole document. |
| JsonDb.JsonDB.Write | json_db.py:33-39 | Replaces the whole document. |
| JsonDb.JsonDB.SaveExcelData | json_db.py:41-65 | The loop over the workbook's sheets assigns each its rows, in workbook order. It then replaces the metadata. The new document equals `ExcelSaved` of the old one and stays well formed. |
| JsonDb.JsonDB.GetSheetData | json_db.py:71-74 | Returns the rows exactly when the document has sheets and that sheet among them, otherwise `None`. |
| JsonDb.JsonDB.UpdateSheetData | json_db.py:76-82 | The new document is the old one with that sheet replaced by exactly `data`, created when absent. |
| JsonDb.JsonDB.UpdateField | json_db.py:84-97 | Succeeds exactly when `0 <= row_index < len(rows)`, an absent sheet counting as empty. On success it writes the field update. Otherwise it raises `IndexError(row_index)` and the stored document is unchanged. |
| JsonDb.JsonDB.AddRow | json_db.py:99-108 | Never fails. The new document is the old one with `row_data` appended to the sheet, which is created empty first when absent. |
| JsonDb.JsonDB.DeleteRow | json_db.py:110-123 | Succeeds exactly when `RowDeleted` does and then writes its result. On failure it reports the same error (`ValueError` for a missing sheet, `IndexError` for a bad index) with the document unchanged. |
| Model.Sheets.Lookup | json_db.py:74 | A sheet is found exactly when its name is a key of the mapping. |
| Model.Sheets.Put | json_db.py:56 | Assigning a sheet keeps the mapping well formed and makes the name map to the new rows. Every other name keeps its rows. The old key order is a prefix of the new one, so an existing key keeps its place and a new key goes last. |
| Store.WithSheet | json_db.py:79-81 | Writing one sheet gives a document in which that sheet has the new rows and every other sheet and the metadata are as before. |
| Store.InitialDocument | json_db.py:14-17 | The document a new store starts from: no sheets, and metadata `created_at` and `last_updated` both null. |
| Store.SheetData | json_db.py:74 | Computes the rows of the named sheet, or none when the document has no `sheets` or no such sheet. |
| Store.FieldUpdated | json_db.py:84-97 | Computes the written document with one cell set, or `IndexError` when the index is outside the rows (an absent sheet counting as empty). |
| Store.RowAdded | json_db.py:99-108 | Computes the written document with the row appended to the sheet, which is created empty first when absent. |
| Store.RowDeleted | json_db.py:110-123 | Computes `ValueError` for a missing sheet, `IndexError` for an index outside its rows, and otherwise the written document without that row. |
| Store.SheetReplaced | json_db.py:76-82 | Computes the written document in which the sheet is exactly the given rows. |
| Store.ExcelSaved | json_db.py:41-65 | Computes the written document: every workbook sheet assigned in workbook order, then the metadata replaced by the save time and source file. |
| Store.UpdateFieldInRange | json_db.py:92-95 | For an in-range index, the cell `rows[i][field]` becomes the new value. The row count, every other row, every other field of that row, every other sheet and the metadata all stay as they were. |
| Store.UpdateFieldOutOfRange | json_db.py:87-97 | For an index outside the rows the result is `IndexError(i)`. This includes a sheet that did not exist. |
| Store.AddRowAppends | json_db.py:99-108 | The sheet grows by exactly one row, the new row is last and the earlier rows are unchanged. An absent sheet ends up holding just that row, and other sheets are untouched. |
| Store.DeleteRowMissingSheet | json_db.py:113-116 | Deleting from a sheet that does not exist is `ValueError(name)`. |
| Store.DeleteRowOutOfRange | json_db.py:118-123 | Deleting at an index outside the rows of an existing sheet is `IndexError(i)`. |
| Store.DeleteRowShifts | json_db.py:118-121 | For an in-range index, the count drops by one. Rows before `i` are unchanged, the new row `j >= i` is the old row `j + 1`, and other sheets are untouched. |
| Store.AddThenDeleteRestores | json_db.py:99-121 | On an existing sheet, `add_row` followed by `delete_row` at the old length gives back the original document. |
| Store.AddThenDeleteOnNewSheet | json_db.py:99-121 | When `add_row` created the sheet, deleting that row leaves the sheet present but empty. Every other sheet and the metadata are as before. |
| Store.UpdateSheetReplaces | json_db.py:76-82 | The sheet becomes exactly `data`. Every other sheet and the metadata are unchanged. |
| Store.PutAllLookup | json_db.py:55-56 | After assigning the sheets listed in turn, a listed name has its source rows and any other name keeps its old rows. |
| Store.PutAllKeepsShape | json_db.py:55-56 | Assigning the sheets in turn keeps the mapping well formed and extends its key order. |
| Store.ExcelSavedEffect | json_db.py:49-65 | Every workbook sheet is replaced by its rows and every other sheet is untouched. The document stays well formed. The metadata becomes exactly `last_updated` and `source_file`, so `created_at` is dropped. |
| Store.SaveIntoFreshStore | json_db.py:41-65 | Saving a one-sheet workbook, with any sheet name, rows, file name and save time, into a fresh store gives exactly that sheet. The metadata is then exactly that time and the file name. |
| Actions.ApplyEntry | bot.py:253-281 | Computes what one action does. An unnamed action does nothing. Each known kind with its guard met gives the store operation's written document or raised error. Any other entry does nothing. |
| Actions.ApplyAll | bot.py:251-285 | Computes a batch: the actions in order, each on the document the previous one left, stopping with the first error raised and keeping the document as it was then. |
| Actions.ApplyEntryKeepsWellFormed | bot.py:253-281 | An action that succeeds leaves the sheet mapping well formed. |
| Actions.ApplyAllKeepsWellFormed | bot.py:251-285 | A batch leaves the sheet mapping well formed: distinct names in insertion order, exactly the keys of the mapping. |
| Actions.ExportAfterUpdates | bot.py:204-221 | With the sheets of the document as the batch left it, in document order, the exported sheet has a non-empty name. It is a sheet of that document or was named by an action. If no action names a sheet and the first sheet has a name, a sheet of that document is always exported. |
| Actions.ApplyUpdates | bot.py:251-285 | The loop with `continue` and re-raise leaves the store and returns the outcome exactly as `ApplyAll` gives them for the old document. |
| Actions.UnnamedActionSkipped | bot.py:254-258 | An action whose `sheet_name` is missing, null or empty changes nothing, whatever else it holds. The batch then goes on with the rest. |
| Actions.UpdateFieldGuard | bot.py:261-266 | A named `update_field` acts exactly when `row_index` is given, `field_name` is non-empty and `new_value` is not null. Otherwise it changes nothing. |
| Actions.EmptyPayloadIsNoOp | bot.py:268-281 | `add_row` with missing or empty `row_data`, and `update_sheet` with missing or empty `sheet_data`, change nothing. |
| Actions.DeleteWithoutIndexIsNoOp | bot.py:273-276 | `delete_row` without `row_index` changes nothing. |
| Actions.UnknownActionIsNoOp | bot.py:260-281 | An action of any other kind changes nothing. |
| Actions.ApplyAllAppend | bot.py:253-285 | A batch is its first part followed by its second part, run on what the first part left. If the first part raised, the second part does not run. |
| Actions.FirstErrorAbortsWithoutRollback | bot.py:253-285 | When the actions before one succeed and that action raises, the batch ends with that error. The earlier effects stay written and nothing after it applies. |
| Actions.ActionsSeePreviousEffects | bot.py:253-285 | Each action runs on the document the previous one wrote. |
| Actions.AddThenDeleteFirstRow | bot.py:253-285 | On an empty sheet, the batch `add_row` then `delete_row 0` succeeds and gives back the original document. |
| Bot.IsBlankQuery | bot.py:159 | Holds when the query is empty or strips to the empty string. |
| Bot.IsExcelFileName | bot.py:112-116 | Holds when the lower-cased file name ends with `.xlsx` or `.xls`. |
| Bot.ExportRequested | bot.py:197-198 | Holds when one of the eight export keywords occurs in the lower-cased query. |
| Bot.ShouldExport | bot.py:201 | Holds when an export was requested, or `needs_update` holds and the action list is non-empty. |
| Bot.ShouldExportIff | bot.py:197-201 | An export happens exactly when a keyword occurs at some position of the lower-cased query, or `needs_update` holds with a non-empty action list. |
| Bot.ExportSheet | bot.py:204-221 | Computes the sheet exported. It is the `sheet_name` of the first action with the key if truthy, else the first sheet the query mentions if its name is truthy, else the first sheet if its name is truthy, else none. |
| Bot.ExportSheetWithoutActionName | bot.py:211-221 | When no action names a sheet and the first sheet has a name, some sheet of the document is exported. |
| Bot.BlankQueryIffAllSpace | bot.py:159-160 | A query is ignored exactly when it is empty or all whitespace. |
| Bot.ExcelFileNameIgnoresCase | bot.py:112-116 | The upload check gives the same answer for a name and its lower-cased form. |
| Bot.ExcelFileNamesAccepted | bot.py:112-116 | `Report.XLSX` and `old.Xls` are accepted. |
| Bot.ExcelFileNamesRefused | bot.py:112-116 | `data.csv` and `macro.xlsm` are refused. |
| Bot.AnyKeywordIn | bot.py:198 | True exactly when some keyword of the list occurs in the text. |
| Bot.ExportRequestedIgnoresCase | bot.py:198 | Export detection gives the same answer for a query and its lower-cased form. |
| Bot.ExportRequestedIffKeyword | bot.py:197-198 | An export is asked for exactly when one of the eight fixed keywords occurs at some position of the lower-cased query. |
| Bot.UpperCaseExportWithoutActions | bot.py:197-201 | `EXPORT`, with no actions, asks for an export and leads to one. |
| Bot.ExportWithoutKeywordMeansUpdates | bot.py:201 | Without an export keyword, an export happens only when `needs_update` holds and the action list is non-empty. |
| Bot.FirstWithSheetKey | bot.py:206-209 | Gives the position of the first action that has a `sheet_name` key. Every earlier action lacks the key. |
| Bot.FirstMentioned | bot.py:216-219 | Gives the position of the first sheet whose lower-cased name occurs in the lower-cased query. No earlier sheet's name occurs there. |
| Bot.SelectSheet | bot.py:204-221 | The two loops with `break`, and the fallback, give a truthy sheet name exactly when `ExportSheet` selects one, and then the same name. |
| Bot.ExportSheetFromActions | bot.py:205-209 | The non-empty `sheet_name` of the first action that has the key decides the sheet, whether or not the sheet exists. |
| Bot.ExportSheetFromQuery | bot.py:211-219 | Otherwise the first sheet in document order that the query mentions, ignoring case, is exported, if its name is not empty. |
| Bot.ExportSheetFallsBackToFirst | bot.py:220-221 | When neither the actions nor the query name a sheet, the first sheet is exported. |
| Bot.NoSheetsNoExport | bot.py:212-223 | With no name from the actions and no sheets in the document, nothing is exported. |
| Bot.ExportSheetIsNamed | bot.py:205-223 | The exported sheet's name is never empty. It is a sheet of the document, or the name an action carried. |
| MistralAi.Context | mistral_ai.py:17-30 | The context starts with the database header, ends with the footer, and is exactly as long as both plus the serialization. |
| MistralAi.UnframeContext | mistral_ai.py:27-30 | The serialization sits unchanged between the two markers. |
| MistralAi.JsonCandidateShape | mistral_ai.py:91-95 | A candidate exists exactly when some `{` comes before some `}`. It starts with `{` and ends with `}`, lies within the text, and has no `{` before it and no `}` after it. |
| MistralAi.JsonCandidateOfEmbedded | mistral_ai.py:91-94 | A JSON object embedded in text with no `{` before it and no `}` after it is exactly the candidate. |
| MistralAi.ProcessQuery | mistral_ai.py:86-117 | A failed call gives the error prefix followed by the message, with no update and no actions. A reply gives either the plain answer (the whole stripped reply, no update, no actions) or exactly the decision decoded from the reply's JSON candidate. |
| MistralAi.JsonCandidate | mistral_ai.py:91-95 | Computes the slice from the first `{` through the last `}` of the text, or nothing when there is no `{` or no `}` after it. |
| MistralAi.FormatForExport | mistral_ai.py:119-135 | Computes, for a non-empty sheet name, a mapping holding that sheet alone with its rows (no rows when it is absent). Otherwise it is all the sheets, or none when the document has no `sheets`. |
| MistralAi.UndecodableReplyIsPlainAnswer | mistral_ai.py:86-109 | Without a candidate, or when the candidate does not decode, the whole stripped reply is the answer, with no update and no actions. |
| MistralAi.FailedCallIsErrorAnswer | mistral_ai.py:112-117 | A failed call answers with the error prefix followed by the message, with no update and no actions. |
| MistralAi.UpdatesOnlyFromDecodedJson | mistral_ai.py:86-111 | A decision that asks for updates or carries actions is exactly what decoding the reply's candidate gave. |
| MistralAi.StripAround | mistral_ai.py:86 | Stripping a text around a part with non-blank ends strips only what lies outside that part. |
| MistralAi.EmbeddedObjectDecides | mistral_ai.py:86-95 | A reply that embeds one decodable JSON object in prose is decided by that object alone. |
| MistralAi.ExportOfNamedSheet | mistral_ai.py:130-133 | With a non-empty sheet name, the export holds that one sheet, with its current rows or no rows. |
| MistralAi.ExportOfAllSheets | mistral_ai.py:130-135 | Without a sheet name, the export is every sheet of the document, or none when the document has no `sheets`. |
| Text.TrimLeftShape | mistral_ai.py:86 | What `strip` drops on the left is whitespace, and what it keeps is the rest of the text. |
| Text.TrimRightShape | mistral_ai.py:86 | What `strip` drops on the right is whitespace, and what it keeps is the start of the text. |
| Text.StripEmptyIffAllSpace | bot.py:159 | A string strips to empty exactly when it is all whitespace. |
| Text.LowerIdempotent | bot.py:198 | Lower-casing twice is the same as lower-casing once. |
| Text.IsSubstringIffOccurs | bot.py:217 | The substring test holds exactly when the needle occurs at some position. |
| Text.Strip | mistral_ai.py:86 | Computes `str.strip()`: the text without its leading and trailing whitespace, as Python's `isspace` defines it. |
| Text.Lower | bot.py:112 | Computes `str.lower()` character by character, for the scripts `LowerChar` covers. |
| Text.IsSubstring | bot.py:198 | Holds when the needle occurs in the text, as Python's `in` on strings. |
| Text.EndsWith | bot.py:115 | Holds when the text ends with the suffix, as `str.endswith`. |
| Text.Find | mistral_ai.py:91 | Gives -1 exactly when the character is absent. Otherwise it gives the index of its first occurrence. |
| Text.RFind | mistral_ai.py:92 | Gives -1 exactly when the character is absent. Otherwise it gives the index of its last occurrence. |

## Left out

- File I/O: `aiofiles`, `open`, `os.path.exists` and `json.dump`/`json.loads`. The file is the field `JsonDB.doc`, and an existing file's content is the constructor's argument.
- The error wrappers for a file that cannot be read or decoded (`Ошибка при чтении БД`/`записи`). There is no file, so there is no such failure.
- JSON serialization and its formatting. The context is given the serialized document as a string.
- JSON decoding of the model's reply. It is the `decode` parameter, `None` meaning `JSONDecodeError`. A reply that decodes to something other than an object is not modelled.
- `datetime.now()`: the timestamp is the `now` parameter.
- excel_handler.py (pandas reading and writing, NaN to null): the workbook's sheets are `SaveExcelData`'s argument.
- config.py: environment loading only.
- The Telegram transport: replies, status messages, file download and removal, the `/start`, `/help` and `/status` texts, and `main`.
- The Mistral client call, its executor and the API-key check. Its result is the `Reply` argument of `ProcessQuery`.
- The process-wide lazily created `mistral_handler`.
- Concurrency between handlers and lost updates. Every operation is atomic in the model.
- The text of the success and failure notes appended to the reply after `apply_updates`, and the `"Не удалось получить ответ"` default.
- Action entries that are not objects, and fields of the wrong type, are not modelled. `ActionEntry` holds typed fields. Each field is absent or null (`None`), or has a value of its type. In Python some wrongly typed values are written without raising:
  - a non-empty list as `row_data` is appended as a row;
  - a non-empty string as `sheet_data` is stored as the sheet;
  - an integer `sheet_name` or `field_name` is used as a key.
  Other wrongly typed values raise, and the error aborts the batch:
  - a list or object as `sheet_name` raises `TypeError` (unhashable) where the sheet is looked up;
  - the same as `field_name` raises where the cell is assigned;
  - a string, list or object as `row_index` raises `TypeError` at the bounds test;
  - a float `row_index` passes the bounds test, then raises `TypeError` at the subscript when in range, or `IndexError` when out of range.
  A bool index acts as 0 or 1.
- The decision's own fields are typed as well: `needsUpdate` is a bool and `updateActions` a sequence. In Python a non-bool `needs_update` is used by its truthiness. A decoded `"update_actions": null` makes the loop over the actions raise `TypeError` once an export is asked for, and the reply becomes the general error message.
- The `logger.error` calls when an action raises or an export fails: logging only.
- Decode failures other than `JSONDecodeError` (a `RecursionError` on deeply nested text, say) fall through to the outer handler and give the error answer. A `decode` returning `Option` cannot express them.
- Top-level keys of the file other than `sheets` and `metadata`, which the store keeps, are not represented. Nor is a file without a `metadata` key.
- Column order inside a row: a row is a map. Nested cell values (lists, objects) are not modelled either; a cell is a scalar.
- Text.LowerChar: covers ASCII, Latin-1 capitals and the Cyrillic block U+0400..U+042F only, which includes every letter in the bot's keywords. Other scripts' case mappings are left out.
- Bot.SelectSheet: the names of the sheets are passed in. `Actions.ExportAfterUpdates` states the selection over the document as an applied batch left it. When `needs_update` is false but a keyword asks for an export, the sheet is still taken from the actions, which were not applied; `Bot.ExportSheetIsNamed` covers that case for any list of sheet names. Delivering the export file and its failures is transport.
