/** SIR summaries: each special investigation report listed in
    document_info.csv that has no summary yet is sent to the language model,
    document first and question after; the reply's summary and y/n violation
    flag are kept, and a reply that yields an empty summary or an empty flag
    is skipped. */
module SirSummaries {
  import opened Wrappers
  import opened Strings
  import opened Regex
  import opened Selection
  import opened AiQueries

  /** The fixed opening of the prompt, shared with the level queries so the
      model provider can cache it. */
  const PromptLead: string := "Consider the following document.\n\n"

  /** The prompt: the fixed opening, the document, a blank line, the query. */
  function Prompt(query: string, document: string): (p: string)
    ensures |p| == |PromptLead| + |document| + 2 + |query|
    ensures p[..|PromptLead|] == PromptLead
    ensures p[|PromptLead|..|PromptLead| + |document|] == document
    ensures p[|PromptLead| + |document|..|PromptLead| + |document| + 2] == "\n\n"
    ensures p[|p| - |query|..] == query
  {
    PromptLead + document + "\n\n" + query
  }

  /** One appended row of sir_summaries.csv. */
  datatype SummaryRecord = SummaryRecord(sha256: string, summary: JsonValue, violation: string)

  /** What the run reads besides the two CSV files: the parquet files, the
      literal_eval of a text cell, the regular-expression search, json.loads,
      and the request, mapping the prompt to the reply or to None when it
      fails. */
  datatype Services = Services(files: seq<seq<ParquetRow>>, eval: LiteralEval, search: Searcher,
                               parse: JsonParser, ask: string -> Option<string>)

  /** The record a selected sha yields, or None when it is skipped: no
      document, a failed request, a summary the log line cannot slice (the
      TypeError is caught like a failed request), or an empty summary or
      flag. */
  function RecordFor(sha: string, query: string, services: Services): (r: Option<SummaryRecord>)
    ensures r.Some? ==> r.value.sha256 == sha && r.value.summary.Truthy() &&
                        (r.value.violation == "y" || r.value.violation == "n")
    ensures r.Some? <==>
              var doc := FindDocument(services.files, sha, services.eval, 0);
              && doc.Some?
              && services.ask(Prompt(query, doc.value.fullText)).Some?
              && var parsed := ParseSummaryReply(services.ask(Prompt(query, doc.value.fullText)).value,
                                                 services.search, services.parse);
                 parsed.summary.Sliceable() && parsed.summary.Truthy() && parsed.violation != ""
    ensures r.Some? ==>
              var reply := services.ask(Prompt(query, FindDocument(services.files, sha, services.eval, 0).value.fullText)).value;
              ParseSummaryReply(reply, services.search, services.parse) == SummaryParse(r.value.summary, r.value.violation)
  {
    match FindDocument(services.files, sha, services.eval, 0)
    case None => None
    case Some(doc) =>
      match services.ask(Prompt(query, doc.fullText))
      case None => None
      case Some(reply) =>
        var parsed := ParseSummaryReply(reply, services.search, services.parse);
        if !parsed.summary.Sliceable() || !parsed.summary.Truthy() || parsed.violation == "" then None
        else Some(SummaryRecord(sha, parsed.summary, parsed.violation))
  }

  /** The records of the first n selected shas, in order. */
  function RecordsUpTo(shas: seq<string>, n: nat, query: string, services: Services): (records: seq<SummaryRecord>)
    requires n <= |shas|
    ensures |records| <= n
  {
    if n == 0 then []
    else
      var records := RecordsUpTo(shas, n - 1, query, services);
      match RecordFor(shas[n - 1], query, services)
      case None => records
      case Some(record) => records + [record]
  }

  /** Every record comes from one of the first n selected shas and carries a
      non-empty summary and a y/n flag. */
  lemma {:induction false} RecordsUpToSpec(shas: seq<string>, n: nat, query: string, services: Services)
    requires n <= |shas|
    ensures forall k :: 0 <= k < |RecordsUpTo(shas, n, query, services)| ==>
              var record := RecordsUpTo(shas, n, query, services)[k];
              record.sha256 in shas[..n] && record.summary.Truthy() &&
              (record.violation == "y" || record.violation == "n")
  {
    if n > 0 {
      RecordsUpToSpec(shas, n - 1, query, services);
      assert shas[..n] == shas[..n - 1] + [shas[n - 1]];
    }
  }

  /** The whole run: None for document_info.csv is a missing file, which
      raises; otherwise the records appended (none when there is nothing to
      do). */
  function SummaryRun(docInfo: Option<seq<DocInfoRow>>, existing: Option<seq<string>>, count: int,
                      query: string, services: Services): Result<seq<SummaryRecord>>
  {
    if docInfo.None? then Failure("Document info CSV not found")
    else
      var selected := SelectMissing(SirShas(docInfo.value), ExistingShas(existing), count);
      Success(RecordsUpTo(selected, |selected|, query, services))
  }

  /** One turn of the loop over the selected shas. */
  method QueryStep(shas: seq<string>, i: nat, query: string, services: Services, results: seq<SummaryRecord>)
    returns (next: seq<SummaryRecord>)
    requires i < |shas|
    requires results == RecordsUpTo(shas, i, query, services)
    ensures next == RecordsUpTo(shas, i + 1, query, services)
  {
    next := results;
    var sha := shas[i];
    var doc := LoadDocument(services.files, sha, services.eval);
    if doc.None? {
      return;
    }
    var reply := services.ask(Prompt(query, doc.value.fullText));
    if reply.None? {
      return;
    }
    var result := ParseSummaryReply(reply.value, services.search, services.parse);
    if !result.summary.Sliceable() {
      return;
    }
    if !result.summary.Truthy() || result.violation == "" {
      return;
    }
    next := results + [SummaryRecord(sha, result.summary, result.violation)];
  }

  /** main, up to the rows it appends. */
  method UpdateSirSummaries(docInfo: Option<seq<DocInfoRow>>, existing: Option<seq<string>>, count: int,
                            query: string, services: Services) returns (r: Result<seq<SummaryRecord>>)
    ensures r == SummaryRun(docInfo, existing, count, query, services)
  {
    if docInfo.None? {
      return Failure("Document info CSV not found");
    }
    var allSirShas := SirShas(docInfo.value);
    var existingShas := ExistingShas(existing);
    var shasToQuery := SelectMissing(allSirShas, existingShas, count);
    var results: seq<SummaryRecord> := [];
    for i := 0 to |shasToQuery|
      invariant results == RecordsUpTo(shasToQuery, i, query, services)
    {
      results := QueryStep(shasToQuery, i, query, services, results);
    }
    return Success(results);
  }

  /** The run appends at most `count` records, each for a SIR that had no
      summary yet, each with a non-empty summary and a y/n flag. */
  lemma SummaryRunSpec(docInfo: Option<seq<DocInfoRow>>, existing: Option<seq<string>>, count: int,
                       query: string, services: Services)
    requires docInfo.Some?
    ensures SummaryRun(docInfo, existing, count, query, services).Success?
    ensures var records := SummaryRun(docInfo, existing, count, query, services).value;
      && (count >= 0 ==> |records| <= count)
      && forall k :: 0 <= k < |records| ==>
           && records[k].summary.Truthy()
           && (records[k].violation == "y" || records[k].violation == "n")
           && records[k].sha256 !in ExistingShas(existing)
           && (exists i :: 0 <= i < |docInfo.value| && docInfo.value[i].isSir && docInfo.value[i].sha256 == records[k].sha256)
  {
    var shas := SirShas(docInfo.value);
    var selected := SelectMissing(shas, ExistingShas(existing), count);
    SelectMissingSpec(shas, ExistingShas(existing), count);
    RecordsUpToSpec(selected, |selected|, query, services);
    assert selected[..|selected|] == selected;
  }
}
