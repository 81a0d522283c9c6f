/** What the three AI-query scripts (violation levels, SIR summaries, summary
    queries) share: the document rows they read, the loading of a document's
    pages from the parquet files, the set of documents already processed, the
    JSON values a reply may hold, and the parsing of a summary reply with its
    y/n violation flag. The HTTP request itself is a function supplied by the
    caller. */
module AiQueries {
  import opened Wrappers
  import opened Strings
  import opened Regex
  import opened Dicts

  // ---------------------------------------------------------------------------
  // Rows and columns
  // ---------------------------------------------------------------------------

  /** The descriptive columns of a SIR row; None is a missing (NaN) cell. */
  datatype InfoCells = InfoCells(agencyId: Option<string>, agencyName: Option<string>,
                                 documentTitle: Option<string>, date: Option<string>)

  /** str(cell) if pd.notna(cell) else '' for each column. */
  function InfoOf(cells: InfoCells): (info: SirInfo)
    ensures cells.agencyId.None? ==> info.agencyId == ""
    ensures cells.agencyId.Some? ==> info.agencyId == cells.agencyId.value
    ensures cells.agencyName.None? ==> info.agencyName == ""
    ensures cells.agencyName.Some? ==> info.agencyName == cells.agencyName.value
    ensures cells.documentTitle.None? ==> info.documentTitle == ""
    ensures cells.documentTitle.Some? ==> info.documentTitle == cells.documentTitle.value
    ensures cells.date.None? ==> info.date == ""
    ensures cells.date.Some? ==> info.date == cells.date.value
  {
    SirInfo(cells.agencyId.GetOr(""), cells.agencyName.GetOr(""), cells.documentTitle.GetOr(""), cells.date.GetOr(""))
  }

  /** The descriptive fields carried into every result record. */
  datatype SirInfo = SirInfo(agencyId: string, agencyName: string, documentTitle: string, date: string)

  /** A selected SIR and its descriptive fields. */
  datatype Sir = Sir(sha256: string, info: SirInfo)

  function ShasOf(sirs: seq<Sir>): (shas: seq<string>)
    ensures |shas| == |sirs| && forall i :: 0 <= i < |sirs| ==> shas[i] == sirs[i].sha256
  {
    seq(|sirs|, i requires 0 <= i < |sirs| => sirs[i].sha256)
  }

  function InfosOf(sirs: seq<Sir>): (infos: seq<SirInfo>)
    ensures |infos| == |sirs| && forall i :: 0 <= i < |sirs| ==> infos[i] == sirs[i].info
  {
    seq(|sirs|, i requires 0 <= i < |sirs| => sirs[i].info)
  }

  /** sir_info_map: a sha listed twice keeps its last row. */
  function InfoMap(sirs: seq<Sir>): map<string, SirInfo> {
    Assign(ShasOf(sirs), InfosOf(sirs), |sirs|)
  }

  /** sir_info_map.get(sha, {}) followed by .get(field, '') for each field. */
  function InfoFor(infoMap: map<string, SirInfo>, sha: string): SirInfo {
    if sha in infoMap then infoMap[sha] else SirInfo("", "", "", "")
  }

  /** A row of document_info.csv: isSir holds when is_special_investigation reads as True. */
  datatype DocInfoRow = DocInfoRow(sha256: string, isSir: bool, cells: InfoCells)

  /** The SHA-256 of every row flagged as a SIR, in row order. */
  function SirShas(rows: seq<DocInfoRow>): (shas: seq<string>)
    ensures forall x :: x in shas <==> exists i :: 0 <= i < |rows| && rows[i].isSir && rows[i].sha256 == x
  {
    if rows == [] then []
    else
      var rest := SirShas(rows[..|rows| - 1]);
      var last := rows[|rows| - 1];
      assert forall i :: 0 <= i < |rows| - 1 ==> rows[..|rows| - 1][i] == rows[i];
      if last.isSir then rest + [last.sha256] else rest
  }

  /** The shas already present in an output file; None is a file that does
      not exist or cannot be read, which counts as no shas at all. */
  function ExistingShas(file: Option<seq<string>>): (existing: set<string>)
    ensures file.None? ==> existing == {}
    ensures file.Some? ==> forall x :: x in existing <==> x in file.value
  {
    match file
    case None => {}
    case Some(column) => set x | x in column
  }

  // ---------------------------------------------------------------------------
  // Loading a document
  // ---------------------------------------------------------------------------

  /** The `text` cell of a parquet row: a string, a list of pages, or null. */
  datatype TextData = TextString(raw: string) | TextPages(pages: seq<string>) | TextNull

  datatype ParquetRow = ParquetRow(sha256: string, text: TextData)

  /** ast.literal_eval on a bracketed string: the list of page strings, or
      None when it raises. */
  type LiteralEval = string -> Option<seq<string>>

  /** s.startswith('[') and s.endswith(']') */
  predicate Bracketed(s: string) {
    |s| >= 1 && s[0] == '[' && s[|s| - 1] == ']'
  }

  /** The pages of a text cell, or None when evaluating it raises. */
  function PagesOf(text: TextData, eval: LiteralEval): (pages: Option<seq<string>>)
    ensures text.TextString? && !Bracketed(Strip(text.raw)) ==> pages == Some([])
    ensures text.TextNull? ==> pages == Some([])
    ensures text.TextPages? ==> pages == Some(text.pages)
    ensures pages.None? ==> text.TextString? && eval(text.raw).None?
  {
    match text
    case TextString(raw) => if Bracketed(Strip(raw)) then eval(raw) else Some([])
    case TextPages(ps) => Some(ps)
    case TextNull => Some([])
  }

  /** A loaded document: its pages and their join with blank lines. */
  datatype Document = Document(sha256: string, pages: seq<string>, fullText: string)

  /** The position of the first row with this sha, or |rows| when none has it. */
  function FirstRowIndex(rows: seq<ParquetRow>, sha: string): (k: nat)
    ensures k <= |rows|
    ensures k < |rows| ==> rows[k].sha256 == sha
    ensures forall j :: 0 <= j < k ==> rows[j].sha256 != sha
  {
    if rows == [] then 0
    else if rows[0].sha256 == sha then 0
    else 1 + FirstRowIndex(rows[1..], sha)
  }

  /** The document one parquet file yields: its first row with the sha, when
      that row's text can be read. */
  function DocumentIn(rows: seq<ParquetRow>, sha: string, eval: LiteralEval): (doc: Option<Document>)
    ensures doc.Some? ==> doc.value.sha256 == sha && doc.value.fullText == Join("\n\n", doc.value.pages)
    ensures (forall j :: 0 <= j < |rows| ==> rows[j].sha256 != sha) ==> doc.None?
  {
    var k := FirstRowIndex(rows, sha);
    if k == |rows| then None
    else
      match PagesOf(rows[k].text, eval)
      case None => None
      case Some(pages) => Some(Document(rows[k].sha256, pages, Join("\n\n", pages)))
  }

  /** The document found in files[i..]: the first file that yields one. */
  function FindDocument(files: seq<seq<ParquetRow>>, sha: string, eval: LiteralEval, i: nat): (doc: Option<Document>)
    requires i <= |files|
    ensures doc.Some? ==> doc.value.sha256 == sha && doc.value.fullText == Join("\n\n", doc.value.pages)
    decreases |files| - i
  {
    if i == |files| then None
    else
      var here := DocumentIn(files[i], sha, eval);
      if here.Some? then here else FindDocument(files, sha, eval, i + 1)
  }

  /** The search stops at the first file that yields the document; there is
      no document exactly when no file yields one. */
  lemma {:induction false} FindDocumentFirst(files: seq<seq<ParquetRow>>, sha: string, eval: LiteralEval, i: nat)
    returns (j: nat)
    requires i <= |files|
    ensures i <= j <= |files|
    ensures forall k :: i <= k < j ==> DocumentIn(files[k], sha, eval).None?
    ensures j < |files| ==> FindDocument(files, sha, eval, i) == DocumentIn(files[j], sha, eval) != None
    ensures j == |files| <==> FindDocument(files, sha, eval, i).None?
    decreases |files| - i
  {
    if i == |files| {
      j := i;
    } else if DocumentIn(files[i], sha, eval).Some? {
      j := i;
    } else {
      j := FindDocumentFirst(files, sha, eval, i + 1);
    }
  }

  /** load_document_from_parquet: the files are tried in order, and a file
      whose matching row cannot be read is passed over. */
  method LoadDocument(files: seq<seq<ParquetRow>>, sha: string, eval: LiteralEval) returns (doc: Option<Document>)
    ensures doc == FindDocument(files, sha, eval, 0)
  {
    for i := 0 to |files|
      invariant FindDocument(files, sha, eval, 0) == FindDocument(files, sha, eval, i)
    {
      var found := DocumentIn(files[i], sha, eval);
      if found.Some? {
        return found;
      }
    }
    return None;
  }

  // ---------------------------------------------------------------------------
  // Replies
  // ---------------------------------------------------------------------------

  /** A JSON value as the post-processing sees it: a list is kept as the str()
      of its items, and any other value (number, boolean, object) as its str()
      and its Python truthiness. */
  datatype JsonValue =
    | JNull
    | JString(s: string)
    | JList(items: seq<string>)
    | JOther(text: string, truthy: bool)
  {
    /** bool(value) in Python. */
    predicate Truthy() {
      match this
      case JNull => false
      case JString(s) => s != ""
      case JList(items) => items != []
      case JOther(_, t) => t
    }

    /** value[:150] does not raise: only strings and lists can be sliced. */
    predicate Sliceable() { JString? || JList? }
  }

  /** json.loads followed by the use of `.get`: NotJson is a JSONDecodeError,
      NotObject a valid document that is not an object (`.get` raises
      AttributeError), Object the members of an object. */
  datatype Parsed = NotJson | NotObject | Object(fields: map<string, JsonValue>)

  type JsonParser = string -> Parsed

  /** parsed.get(key, default) */
  function Get(fields: map<string, JsonValue>, key: string, default: JsonValue): JsonValue {
    if key in fields then fields[key] else default
  }

  /** The y/n flag of a summary reply: lowercased; kept when it is 'y' or 'n';
      otherwise 'y' when it mentions "yes" or "substantiated", else 'n'. */
  function NormalizeViolationFlag(violation: string): (flag: string)
    ensures flag == "y" || flag == "n"
    ensures flag == "y" <==> LowerStr(violation) == "y" ||
                             (LowerStr(violation) != "n" &&
                              (Contains(LowerStr(violation), "yes") || Contains(LowerStr(violation), "substantiated")))
  {
    var v := LowerStr(violation);
    if v == "y" || v == "n" then v
    else if Contains(v, "yes") || Contains(v, "substantiated") then "y"
    else "n"
  }

  /** A flag that is already 'y' or 'n' is left alone, so normalising twice
      changes nothing. */
  lemma NormalizeViolationFlagIdempotent(violation: string)
    ensures NormalizeViolationFlag(NormalizeViolationFlag(violation)) == NormalizeViolationFlag(violation)
  {
    var f := NormalizeViolationFlag(violation);
    assert LowerStr(f) == f by {
      assert forall i :: 0 <= i < |f| ==> Lower(f[i]) == f[i];
    }
  }

  /** "unsubstantiated" contains "substantiated", so it is read as a violation. */
  lemma UnsubstantiatedReadsAsViolation()
    ensures NormalizeViolationFlag("Unsubstantiated") == "y"
  {
    var v := LowerStr("Unsubstantiated");
    assert v == "unsubstantiated" by {
      assert forall i :: 0 <= i < |v| ==> v[i] == "unsubstantiated"[i];
    }
    assert StartsAt(v, 2, "substantiated");
  }

  /** A summary reply once parsed: an empty violation marks a reply that
      could not be parsed. */
  datatype SummaryParse = SummaryParse(summary: JsonValue, violation: string)

  /** The regular expression that picks a brace-free object holding
      "summary" before "violation" out of the reply. */
  const SummaryObjectPattern: string := "\\{[^{}]*\"summary\"[^{}]*\"violation\"[^{}]*\\}"

  /** The reply parsing of both summary scripts: the object the pattern finds
      (searched with re.DOTALL), or else the whole reply, is parsed; any
      failure (not JSON, not an object, a violation that is not a string)
      leaves both fields empty. */
  function ParseSummaryReply(reply: string, search: Searcher, parse: JsonParser): (r: SummaryParse)
    ensures r.violation == "" || r.violation == "y" || r.violation == "n"
    ensures r.violation == "" ==> r.summary == JString("")
    ensures r.violation != "" <==>
              (var text := if search(SummaryObjectPattern, reply).Some?
                           then search(SummaryObjectPattern, reply).value.Group(0) else reply;
               parse(text).Object? && Get(parse(text).fields, "violation", JString("")).JString?)
    ensures r.violation != "" ==>
              var text := if search(SummaryObjectPattern, reply).Some?
                          then search(SummaryObjectPattern, reply).value.Group(0) else reply;
              && parse(text).Object?
              && r.violation == NormalizeViolationFlag(Get(parse(text).fields, "violation", JString("")).s)
              && r.summary == Get(parse(text).fields, "summary", JString(""))
  {
    var m := search(SummaryObjectPattern, reply);
    var text := if m.Some? then m.value.Group(0) else reply;
    match parse(text)
    case Object(fields) =>
      (match Get(fields, "violation", JString(""))
       case JString(v) => SummaryParse(Get(fields, "summary", JString("")), NormalizeViolationFlag(v))
       case _ => SummaryParse(JString(""), ""))
    case _ => SummaryParse(JString(""), "")
  }
}
