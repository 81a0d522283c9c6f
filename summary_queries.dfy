/** Summary queries: like the SIR summaries, each SIR without an answer yet is
    sent to the language model, here question first and document after; the
    record keeps the SIR's descriptive fields and the query, and it is
    appended even when the reply could not be parsed. */
module SummaryQueries {
  import opened Wrappers
  import opened Strings
  import opened Regex
  import opened Selection
  import opened AiQueries

  /** The prompt: the query, a blank line, the document. */
  function Prompt(query: string, document: string): (p: string)
    ensures |p| == |query| + 2 + |document|
    ensures p[..|query|] == query
    ensures p[|query|..|query| + 2] == "\n\n"
    ensures p[|p| - |document|..] == document
  {
    query + "\n\n" + document
  }

  /** The SIR rows of document_info.csv, in row order, after the first n rows. */
  function SirsUpTo(rows: seq<DocInfoRow>, n: nat): (sirs: seq<Sir>)
    requires n <= |rows|
    ensures |sirs| <= n
  {
    if n == 0 then []
    else
      var sirs := SirsUpTo(rows, n - 1);
      var row := rows[n - 1];
      if row.isSir then sirs + [Sir(row.sha256, InfoOf(row.cells))] else sirs
  }

  /** The SIR list holds exactly the flagged rows, with missing cells read
      as empty strings. */
  lemma {:induction false} SirsUpToMembers(rows: seq<DocInfoRow>, n: nat)
    requires n <= |rows|
    ensures forall sir :: sir in SirsUpTo(rows, n) <==>
              exists i :: 0 <= i < n && rows[i].isSir && sir == Sir(rows[i].sha256, InfoOf(rows[i].cells))
  {
    if n > 0 {
      SirsUpToMembers(rows, n - 1);
      forall sir | sir in SirsUpTo(rows, n)
        ensures exists i :: 0 <= i < n && rows[i].isSir && sir == Sir(rows[i].sha256, InfoOf(rows[i].cells))
      {
        if sir in SirsUpTo(rows, n - 1) {
          var i :| 0 <= i < n - 1 && rows[i].isSir && sir == Sir(rows[i].sha256, InfoOf(rows[i].cells));
          assert 0 <= i < n;
        } else {
          assert 0 <= n - 1 < n && rows[n - 1].isSir;
        }
      }
    }
  }

  /** get_all_sir_info; None is a document_info.csv that does not exist. */
  method GetAllSirInfo(file: Option<seq<DocInfoRow>>) returns (r: Result<seq<Sir>>)
    ensures file.None? ==> r.Failure?
    ensures file.Some? ==> r == Success(SirsUpTo(file.value, |file.value|))
  {
    if file.None? {
      return Failure("Document info CSV not found");
    }
    var rows := file.value;
    var sirList: seq<Sir> := [];
    for i := 0 to |rows|
      invariant sirList == SirsUpTo(rows, i)
    {
      if rows[i].isSir {
        sirList := sirList + [Sir(rows[i].sha256, InfoOf(rows[i].cells))];
      }
    }
    return Success(sirList);
  }

  /** One appended row of the summary-queries file. */
  datatype QueryRecord = QueryRecord(sha256: string, info: SirInfo, query: string,
                                     summary: JsonValue, violation: string)

  /** What the run reads besides the two CSV files (as for the SIR summaries). */
  datatype Services = Services(files: seq<seq<ParquetRow>>, eval: LiteralEval, search: Searcher,
                               parse: JsonParser, ask: string -> Option<string>)

  /** The record a selected sha yields, or None when it is skipped: only a
      missing document, a failed request, or a summary the log line cannot
      slice (the TypeError is caught like a failed request) skips it; an
      unparsed reply is recorded with empty fields. */
  function RecordFor(sha: string, infoMap: map<string, SirInfo>, query: string, services: Services)
    : (r: Option<QueryRecord>)
    ensures r.Some? ==> r.value.sha256 == sha && r.value.query == query && r.value.info == InfoFor(infoMap, sha)
    ensures r.Some? ==> r.value.violation == "" || r.value.violation == "y" || r.value.violation == "n"
    ensures r.Some? && r.value.violation == "" ==> r.value.summary == JString("")
    ensures r.None? <==> !Answered(sha, query, services)
    ensures r.Some? ==>
              var reply := services.ask(Prompt(query, FindDocument(services.files, sha, services.eval, 0).value.fullText)).value;
              ParseSummaryReply(reply, services.search, services.parse) == SummaryParse(r.value.summary, r.value.violation)
  {
    match FindDocument(services.files, sha, services.eval, 0)
    case None => None
    case Some(doc) =>
      match services.ask(Prompt(query, doc.fullText))
      case None => None
      case Some(reply) =>
        var parsed := ParseSummaryReply(reply, services.search, services.parse);
        if !parsed.summary.Sliceable() then None
        else Some(QueryRecord(sha, InfoFor(infoMap, sha), query, parsed.summary, parsed.violation))
  }

  /** The records of the first n selected shas, in order. */
  function RecordsUpTo(shas: seq<string>, n: nat, infoMap: map<string, SirInfo>, query: string, services: Services)
    : (records: seq<QueryRecord>)
    requires n <= |shas|
    ensures |records| <= n
  {
    if n == 0 then []
    else
      var records := RecordsUpTo(shas, n - 1, infoMap, query, services);
      match RecordFor(shas[n - 1], infoMap, query, services)
      case None => records
      case Some(record) => records + [record]
  }

  /** The document was found, the request succeeded, and the parsed summary
      can be sliced. */
  predicate Answered(sha: string, query: string, services: Services) {
    var doc := FindDocument(services.files, sha, services.eval, 0);
    doc.Some? && services.ask(Prompt(query, doc.value.fullText)).Some? &&
    ParseSummaryReply(services.ask(Prompt(query, doc.value.fullText)).value, services.search, services.parse).summary.Sliceable()
  }

  /** The number of the first n selected shas that were answered. */
  function AnsweredCount(shas: seq<string>, n: nat, query: string, services: Services): (c: nat)
    requires n <= |shas|
    ensures c <= n
  {
    if n == 0 then 0
    else AnsweredCount(shas, n - 1, query, services) + (if Answered(shas[n - 1], query, services) then 1 else 0)
  }

  /** Unlike the SIR summaries, every answered sha is recorded, parsed or not:
      one record per answered sha. */
  lemma {:induction false} RecordsUpToCount(shas: seq<string>, n: nat, infoMap: map<string, SirInfo>, query: string, services: Services)
    requires n <= |shas|
    ensures |RecordsUpTo(shas, n, infoMap, query, services)| == AnsweredCount(shas, n, query, services)
  {
    if n > 0 {
      RecordsUpToCount(shas, n - 1, infoMap, query, services);
      var r := RecordFor(shas[n - 1], infoMap, query, services);
      assert r.None? <==> !Answered(shas[n - 1], query, services);
    }
  }

  /** Each record is for one of the first n shas. */
  lemma {:induction false} RecordsUpToShas(shas: seq<string>, n: nat, infoMap: map<string, SirInfo>, query: string, services: Services)
    requires n <= |shas|
    ensures forall k :: 0 <= k < |RecordsUpTo(shas, n, infoMap, query, services)| ==>
              RecordsUpTo(shas, n, infoMap, query, services)[k].sha256 in shas[..n]
  {
    if n > 0 {
      RecordsUpToShas(shas, n - 1, infoMap, query, services);
      PrefixStep(shas, n - 1);
    }
  }

  /** The whole run: None for document_info.csv is a missing file, which
      raises; otherwise the records appended. */
  function QueryRun(docInfo: Option<seq<DocInfoRow>>, existing: Option<seq<string>>, count: int,
                    query: string, services: Services): Result<seq<QueryRecord>>
  {
    if docInfo.None? then Failure("Document info CSV not found")
    else
      var sirs := SirsUpTo(docInfo.value, |docInfo.value|);
      var selected := SelectMissing(ShasOf(sirs), ExistingShas(existing), count);
      Success(RecordsUpTo(selected, |selected|, InfoMap(sirs), query, services))
  }

  /** One turn of the loop over the selected shas. */
  method QueryStep(shas: seq<string>, i: nat, infoMap: map<string, SirInfo>, query: string,
                   services: Services, results: seq<QueryRecord>) returns (next: seq<QueryRecord>)
    requires i < |shas|
    requires results == RecordsUpTo(shas, i, infoMap, query, services)
    ensures next == RecordsUpTo(shas, i + 1, infoMap, query, services)
  {
    next := results;
    var sha := shas[i];
    var doc := LoadDocument(services.files, sha, services.eval);
    if doc.None? {
      return;
    }
    var reply := services.ask(Prompt(query, doc.value.fullText));
    if reply.None? {
      return;
    }
    var result := ParseSummaryReply(reply.value, services.search, services.parse);
    if !result.summary.Sliceable() {
      return;
    }
    next := results + [QueryRecord(sha, InfoFor(infoMap, sha), query, result.summary, result.violation)];
  }

  /** main, up to the rows it appends. */
  method UpdateSummaryQueries(docInfo: Option<seq<DocInfoRow>>, existing: Option<seq<string>>, count: int,
                              query: string, services: Services) returns (r: Result<seq<QueryRecord>>)
    ensures r == QueryRun(docInfo, existing, count, query, services)
  {
    var allSirs := GetAllSirInfo(docInfo);
    if allSirs.Failure? {
      return Failure("Document info CSV not found");
    }
    var sirs := allSirs.value;
    var infoMap := InfoMap(sirs);
    var shasToQuery := SelectMissing(ShasOf(sirs), ExistingShas(existing), count);
    var results: seq<QueryRecord> := [];
    for i := 0 to |shasToQuery|
      invariant results == RecordsUpTo(shasToQuery, i, infoMap, query, services)
    {
      results := QueryStep(shasToQuery, i, infoMap, query, services, results);
    }
    return Success(results);
  }

  /** A sha among the SIRs' shas is the sha of a SIR row of document_info.csv. */
  lemma {:induction false} SirShaFromRow(rows: seq<DocInfoRow>, sha: string)
    requires sha in ShasOf(SirsUpTo(rows, |rows|))
    ensures exists i :: 0 <= i < |rows| && rows[i].isSir && rows[i].sha256 == sha
  {
    var sirs := SirsUpTo(rows, |rows|);
    var shas := ShasOf(sirs);
    SirsUpToMembers(rows, |rows|);
    var m :| 0 <= m < |shas| && shas[m] == sha;
    assert sirs[m] in sirs;
    var i :| 0 <= i < |rows| && rows[i].isSir && sirs[m] == Sir(rows[i].sha256, InfoOf(rows[i].cells));
  }

  /** The run appends one record per selected SIR that was answered, at most
      `count` of them, each for a SIR without an answer yet. */
  lemma QueryRunSpec(docInfo: Option<seq<DocInfoRow>>, existing: Option<seq<string>>, count: int,
                     query: string, services: Services)
    requires docInfo.Some?
    ensures QueryRun(docInfo, existing, count, query, services).Success?
    ensures var sirs := SirsUpTo(docInfo.value, |docInfo.value|);
            var selected := SelectMissing(ShasOf(sirs), ExistingShas(existing), count);
            var records := QueryRun(docInfo, existing, count, query, services).value;
      && |records| == AnsweredCount(selected, |selected|, query, services)
      && (count >= 0 ==> |records| <= count)
      && forall k :: 0 <= k < |records| ==>
           && records[k].sha256 !in ExistingShas(existing)
           && (exists i :: 0 <= i < |docInfo.value| && docInfo.value[i].isSir && docInfo.value[i].sha256 == records[k].sha256)
  {
    var rows := docInfo.value;
    var sirs := SirsUpTo(rows, |rows|);
    var shas := ShasOf(sirs);
    var selected := SelectMissing(shas, ExistingShas(existing), count);
    var records := RecordsUpTo(selected, |selected|, InfoMap(sirs), query, services);
    assert QueryRun(docInfo, existing, count, query, services) == Success(records);
    SelectMissingSpec(shas, ExistingShas(existing), count);
    RecordsUpToCount(selected, |selected|, InfoMap(sirs), query, services);
    RecordsUpToShas(selected, |selected|, InfoMap(sirs), query, services);
    assert selected[..|selected|] == selected;
    forall k | 0 <= k < |records|
      ensures records[k].sha256 in selected
      ensures exists i :: 0 <= i < |rows| && rows[i].isSir && rows[i].sha256 == records[k].sha256
    {
      SirShaFromRow(rows, records[k].sha256);
    }
  }
}
