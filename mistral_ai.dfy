/**
 * The parts of the language-model adapter that are plain computation: the
 * framing of the serialized database in the prompt, turning the model's reply
 * text into a decision, and cutting the document down to the sheet exported.
 */
module MistralAi {
  import opened Model
  import opened Text
  import opened Store

  // ---------------------------------------------------------------------------
  // Prompt context

  const CONTEXT_HEADER := "=== БАЗА ДАННЫХ (JSON) ===\n\n"
  const CONTEXT_FOOTER := "\n\n=== КОНЕЦ БАЗЫ ДАННЫХ ===\n\n"

  /** `get_context_from_db`, given the JSON serialization of the document. */
  function Context(serialized: string): (r: string)
    ensures StartsWith(r, CONTEXT_HEADER) && EndsWith(r, CONTEXT_FOOTER)
    ensures |r| == |CONTEXT_HEADER| + |serialized| + |CONTEXT_FOOTER|
  {
    CONTEXT_HEADER + serialized + CONTEXT_FOOTER
  }

  /** Reads the serialization back out of a context string, if it is framed by the markers. */
  function Unframe(context: string): Option<string> {
    if |context| >= |CONTEXT_HEADER| + |CONTEXT_FOOTER|
       && StartsWith(context, CONTEXT_HEADER) && EndsWith(context, CONTEXT_FOOTER)
    then Some(context[|CONTEXT_HEADER|..|context| - |CONTEXT_FOOTER|])
    else None
  }

  /** The serialization sits unchanged between the two markers. */
  lemma UnframeContext(serialized: string)
    ensures Unframe(Context(serialized)) == Some(serialized)
  {
    var c := Context(serialized);
    assert c[|CONTEXT_HEADER|..|c| - |CONTEXT_FOOTER|] == serialized;
  }

  // ---------------------------------------------------------------------------
  // Reply to decision

  /**
   * The JSON candidate in a reply: from the first `{` up to and including the
   * last `}`, when there is a `{` and the last `}` comes after it.
   */
  function JsonCandidate(text: string): Option<string> {
    var start := Find(text, '{');
    var end := RFind(text, '}') + 1;
    if start != -1 && end > start then Some(text[start..end]) else None
  }

  /**
   * There is a candidate exactly when some `{` comes before some `}`; it then
   * starts with `{`, ends with `}`, lies within the text, has no `{` before it
   * and no `}` after it.
   */
  lemma JsonCandidateShape(text: string)
    ensures JsonCandidate(text).Some? <==>
      exists i, j :: 0 <= i < j < |text| && text[i] == '{' && text[j] == '}'
    ensures JsonCandidate(text).Some? ==>
      var c := JsonCandidate(text).value;
      && |c| >= 2 && c[0] == '{' && c[|c| - 1] == '}'
      && exists s :: OccursAt(c, text, s) && '{' !in text[..s] && '}' !in text[s + |c|..]
  {
    var start := Find(text, '{');
    var last := RFind(text, '}');
    if exists i, j :: 0 <= i < j < |text| && text[i] == '{' && text[j] == '}' {
      var i, j :| 0 <= i < j < |text| && text[i] == '{' && text[j] == '}';
    }
    if JsonCandidate(text).Some? {
      var c := JsonCandidate(text).value;
      assert OccursAt(c, text, start);
    }
  }

  /**
   * A JSON object embedded in prose without braces is exactly the candidate
   * found in it.
   */
  lemma JsonCandidateOfEmbedded(p: string, obj: string, q: string)
    requires '{' !in p && '}' !in q
    requires obj != [] && obj[0] == '{' && obj[|obj| - 1] == '}'
    ensures JsonCandidate(p + obj + q) == Some(obj)
  {
    var text := p + obj + q;
    var start := Find(text, '{');
    var last := RFind(text, '}');
    assert text[|p|] == '{';
    assert text[..|p|] == p;
    var e := |p| + |obj| - 1;
    assert text[e] == '}';
    assert text[e + 1..] == q;
    assert text[|p|..e + 1] == obj;
  }

  /** What the model call gave: the reply's content, or the message of the exception raised. */
  datatype Reply = Replied(content: string) | Raised(message: string)

  const ERROR_PREFIX := "Ошибка при обработке запроса: "

  /** The plain-text decision: the reply is the answer, nothing is updated. */
  function PlainAnswer(text: string): Decision {
    Decision(Some(text), false, [])
  }

  /**
   * `process_query` after the model call. `decode` stands for `json.loads`
   * followed by reading the decision out of the object; `None` is a
   * `JSONDecodeError`.
   */
  function ProcessQuery(reply: Reply, decode: string -> Option<Decision>): (r: Decision)
    ensures reply.Raised? ==>
      && r.response == Some(ERROR_PREFIX + reply.message) && !r.needsUpdate && r.updateActions == []
    ensures reply.Replied? ==>
      var text := Strip(reply.content);
      || r == Decision(Some(text), false, [])
      || (JsonCandidate(text).Some? && decode(JsonCandidate(text).value) == Some(r))
  {
    match reply
    case Raised(message) => PlainAnswer(ERROR_PREFIX + message)
    case Replied(content) =>
      var text := Strip(content);
      match JsonCandidate(text)
      case None => PlainAnswer(text)
      case Some(candidate) =>
        match decode(candidate)
        case None => PlainAnswer(text)
        case Some(decision) => decision
  }

  /** Without a candidate, or when it does not decode, the whole stripped reply becomes the answer. */
  lemma UndecodableReplyIsPlainAnswer(content: string, decode: string -> Option<Decision>)
    requires JsonCandidate(Strip(content)).None? || decode(JsonCandidate(Strip(content)).value).None?
    ensures ProcessQuery(Replied(content), decode) == Decision(Some(Strip(content)), false, [])
  {
  }

  /** A failed call becomes an answer that starts with the error text and asks for no update. */
  lemma FailedCallIsErrorAnswer(message: string, decode: string -> Option<Decision>)
    ensures
      var r := ProcessQuery(Raised(message), decode);
      && r.response.Some? && StartsWith(r.response.value, ERROR_PREFIX)
      && r.response.value[|ERROR_PREFIX|..] == message
      && !r.needsUpdate && r.updateActions == []
  {
  }

  /** Only a decision decoded from the candidate can ask for updates. */
  lemma UpdatesOnlyFromDecodedJson(reply: Reply, decode: string -> Option<Decision>)
    requires ProcessQuery(reply, decode).needsUpdate || ProcessQuery(reply, decode).updateActions != []
    ensures reply.Replied? && JsonCandidate(Strip(reply.content)).Some?
    ensures decode(JsonCandidate(Strip(reply.content)).value) == Some(ProcessQuery(reply, decode))
  {
  }

  /** Leading whitespace is taken from before a part that starts with a non-blank character only. */
  lemma TrimLeftBefore(p: string, x: string, q: string)
    requires x != [] && !IsSpace(x[0])
    ensures TrimLeft(p + x + q) == TrimLeft(p) + x + q
  {
    var xq := x + q;
    assert TrimLeft(p + xq) == TrimLeft(p) + xq by {
      assert xq[0] == x[0];
      TrimLeftAppend(p, xq);
    }
    assert p + xq == p + x + q;
    assert TrimLeft(p) + xq == TrimLeft(p) + x + q;
  }

  /** Trailing whitespace is taken from after a part that ends in a non-blank character only. */
  lemma TrimRightAfter(p: string, x: string, q: string)
    requires x != [] && !IsSpace(x[|x| - 1])
    ensures TrimRight(p + x + q) == p + x + TrimRight(q)
  {
    var px := p + x;
    assert px[|px| - 1] == x[|x| - 1];
    TrimRightPrepend(px, q);
  }

  /** Stripping a text around a part with non-blank ends strips only what lies outside that part. */
  lemma StripAround(p: string, x: string, q: string)
    requires x != [] && !IsSpace(x[0]) && !IsSpace(x[|x| - 1])
    ensures Strip(p + x + q) == TrimLeft(p) + x + TrimRight(q)
  {
    TrimLeftBefore(p, x, q);
    TrimRightAfter(TrimLeft(p), x, q);
  }

  /**
   * A reply that embeds one JSON object in prose (no `{` before it, no `}`
   * after it) is decided by that object alone.
   */
  lemma EmbeddedObjectDecides(p: string, obj: string, q: string, decode: string -> Option<Decision>)
    requires '{' !in p && '}' !in q
    requires obj != [] && obj[0] == '{' && obj[|obj| - 1] == '}'
    requires decode(obj).Some?
    ensures ProcessQuery(Replied(p + obj + q), decode) == decode(obj).value
  {
    var p', q' := TrimLeft(p), TrimRight(q);
    assert !IsSpace(obj[0]) && !IsSpace(obj[|obj| - 1]);
    StripAround(p, obj, q);
    assert '{' !in p' by {
      TrimLeftShape(p);
      assert p' == p[|p| - |p'|..];
    }
    assert '}' !in q' by {
      TrimRightShape(q);
      assert q' == q[..|q'|];
    }
    JsonCandidateOfEmbedded(p', obj, q');
    assert JsonCandidate(Strip(p + obj + q)) == Some(obj);
  }

  // ---------------------------------------------------------------------------
  // Export shaping

  /**
   * `format_db_for_export`: with a non-empty sheet name, a mapping holding
   * just that sheet (empty rows when the document has no such sheet);
   * otherwise all sheets.
   */
  function FormatForExport(d: Document, sheetName: Option<string>): Sheets {
    var sheets := SheetsOf(d);
    if IsTruthy(sheetName) then
      Sheets([sheetName.value], map[sheetName.value := sheets.Lookup(sheetName.value).GetOr([])])
    else sheets
  }

  /** The export of a named sheet holds that sheet alone, with its current rows or none. */
  lemma ExportOfNamedSheet(d: Document, name: string)
    requires name != ""
    ensures
      var e := FormatForExport(d, Some(name));
      && e.WellFormed()
      && e.order == [name]
      && e.table.Keys == {name}
      && e.Lookup(name) == Some(SheetData(d, name).GetOr([]))
  {
  }

  /** Without a sheet name the export is every sheet of the document. */
  lemma ExportOfAllSheets(d: Document, sheetName: Option<string>)
    requires !IsTruthy(sheetName)
    ensures FormatForExport(d, sheetName) == SheetsOf(d)
    ensures forall n :: FormatForExport(d, sheetName).Lookup(n) == SheetData(d, n)
  {
  }
}
