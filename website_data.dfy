/** The website's data files: the document-info rows are grouped by agency,
    each document carrying its SIR summary when one exists; agencies are
    named after the last non-empty name seen for them, sorted by name, and
    summarised with their report counts. */
module WebsiteData {
  import opened Wrappers
  import opened Strings
  import opened Dicts

  // ---------------------------------------------------------------------------
  // load_sir_summaries_csv
  // ---------------------------------------------------------------------------

  datatype SirSummary = SirSummary(summary: string, violation: string)

  /** The stripped sha of a summary row. */
  function ShaOf(row: CsvRow): string {
    Strip(Cell(row, "sha256", ""))
  }

  /** The summary a row contributes: its 'response' and 'violation' cells. */
  function SummaryOf(row: CsvRow): SirSummary {
    SirSummary(Cell(row, "response", ""), Cell(row, "violation", ""))
  }

  /** The summaries after the first n rows: a row with an empty sha is
      skipped, and a later row overwrites an earlier one. */
  function SummariesUpTo(rows: seq<CsvRow>, n: nat): (summaries: map<string, SirSummary>)
    requires n <= |rows|
    ensures "" !in summaries
  {
    if n == 0 then map[]
    else
      var summaries := SummariesUpTo(rows, n - 1);
      var sha := ShaOf(rows[n - 1]);
      if sha == "" then summaries else summaries[sha := SummaryOf(rows[n - 1])]
  }

  /** The summaries of a file; None is a file that was not given or does not exist. */
  function SummaryTable(file: Option<seq<CsvRow>>): (summaries: map<string, SirSummary>)
    ensures file.None? ==> summaries == map[]
  {
    match file
    case None => map[]
    case Some(rows) => SummariesUpTo(rows, |rows|)
  }

  /** load_sir_summaries_csv. */
  method LoadSirSummaries(file: Option<seq<CsvRow>>) returns (summariesBySha: map<string, SirSummary>)
    ensures summariesBySha == SummaryTable(file)
  {
    summariesBySha := map[];
    if file.None? {
      return;
    }
    var rows := file.value;
    for i := 0 to |rows|
      invariant summariesBySha == SummariesUpTo(rows, i)
    {
      var sha := Strip(Cell(rows[i], "sha256", ""));
      if sha == "" {
        continue;
      }
      summariesBySha := summariesBySha[sha := SirSummary(Cell(rows[i], "response", ""), Cell(rows[i], "violation", ""))];
    }
  }

  /** A sha has a summary exactly when some row names it. */
  lemma {:induction false} SummaryKeys(rows: seq<CsvRow>, n: nat, sha: string)
    requires n <= |rows|
    ensures sha in SummariesUpTo(rows, n) <==> sha != "" && exists i :: 0 <= i < n && ShaOf(rows[i]) == sha
  {
    if n > 0 {
      SummaryKeys(rows, n - 1, sha);
      if sha in SummariesUpTo(rows, n) && sha != ShaOf(rows[n - 1]) {
        var i :| 0 <= i < n - 1 && ShaOf(rows[i]) == sha;
        assert 0 <= i < n && ShaOf(rows[i]) == sha;
      }
    }
  }

  /** The summary kept for a sha is the one of the last row naming it. */
  lemma {:induction false} SummaryLastRowWins(rows: seq<CsvRow>, n: nat, i: nat)
    requires i < n <= |rows| && ShaOf(rows[i]) != ""
    requires forall j :: i < j < n ==> ShaOf(rows[j]) != ShaOf(rows[i])
    ensures ShaOf(rows[i]) in SummariesUpTo(rows, n)
    ensures SummariesUpTo(rows, n)[ShaOf(rows[i])] == SummaryOf(rows[i])
  {
    var sha := ShaOf(rows[i]);
    if i < n - 1 {
      SummaryLastRowWins(rows, n - 1, i);
      var last := ShaOf(rows[n - 1]);
      assert last != sha;
      assert SummariesUpTo(rows, n) ==
             if last == "" then SummariesUpTo(rows, n - 1)
             else SummariesUpTo(rows, n - 1)[last := SummaryOf(rows[n - 1])];
    } else {
      assert SummariesUpTo(rows, n) == SummariesUpTo(rows, n - 1)[sha := SummaryOf(rows[i])];
    }
  }

  // ---------------------------------------------------------------------------
  // load_document_info_csv
  // ---------------------------------------------------------------------------

  /** One document as the website lists it. */
  datatype Document = Document(date: string, agencyName: string, documentTitle: string, isSir: bool,
                               sha256: string, dateProcessed: string, sirSummary: Option<SirSummary>)

  /** The is_special_investigation cell reads as true. */
  predicate IsSirFlag(cell: string) {
    var l := LowerStr(cell);
    l == "true" || l == "1" || l == "yes"
  }

  /** The stripped agency id of a row. */
  function AgencyIdOf(row: CsvRow): string {
    Strip(Cell(row, "agency_id", ""))
  }

  /** The stripped agency name of a row. */
  function AgencyNameOf(row: CsvRow): string {
    Strip(Cell(row, "agency_name", ""))
  }

  /** The document a row describes; it carries a SIR summary exactly when
      its sha has one. */
  function DocumentOf(row: CsvRow, summaries: map<string, SirSummary>): (doc: Document)
    ensures doc.isSir <==> IsSirFlag(Cell(row, "is_special_investigation", "False"))
    ensures doc.sirSummary.Some? <==> Cell(row, "sha256", "") in summaries
    ensures doc.sirSummary.Some? ==> doc.sirSummary.value == summaries[Cell(row, "sha256", "")]
    ensures doc.agencyName == AgencyNameOf(row) && doc.sha256 == Cell(row, "sha256", "")
  {
    var sha := Cell(row, "sha256", "");
    Document(Cell(row, "date", ""), AgencyNameOf(row), Cell(row, "document_title", ""),
             IsSirFlag(Cell(row, "is_special_investigation", "False")), sha, Cell(row, "date_processed", ""),
             if sha in summaries then Some(summaries[sha]) else None)
  }

  /** documents_by_agency and agency_names; `order` lists the agency ids in
      the order the dictionary first saw them, which is its iteration order. */
  datatype Grouping = Grouping(order: seq<string>, documents: map<string, seq<Document>>, names: map<string, string>)

  /** What the grouping loop takes from one row: its stripped agency id and
      name, and its document. */
  datatype Entry = Entry(agencyId: string, agencyName: string, document: Document)

  function EntryOf(row: CsvRow, summaries: map<string, SirSummary>): Entry {
    Entry(AgencyIdOf(row), AgencyNameOf(row), DocumentOf(row, summaries))
  }

  /** The entries of all rows, in row order. */
  function Entries(rows: seq<CsvRow>, summaries: map<string, SirSummary>): (entries: seq<Entry>)
    ensures |entries| == |rows|
    ensures forall i :: 0 <= i < |rows| ==> entries[i] == EntryOf(rows[i], summaries)
  {
    seq(|rows|, i requires 0 <= i < |rows| => EntryOf(rows[i], summaries))
  }

  /** The documents grouped so far under an id: documents_by_agency[id]. */
  function DocsOf(documents: map<string, seq<Document>>, id: string): seq<Document> {
    if id in documents then documents[id] else []
  }

  /** The agency ids of the first n entries, each listed at its first entry;
      an entry with an empty id is dropped. */
  function OrderUpTo(entries: seq<Entry>, n: nat): seq<string>
    requires n <= |entries|
  {
    if n == 0 then []
    else
      var order := OrderUpTo(entries, n - 1);
      var id := entries[n - 1].agencyId;
      if id == "" || id in order then order else order + [id]
  }

  /** documents_by_agency after the first n entries: each kept entry's
      document is appended to its agency's list. */
  function DocumentsUpTo(entries: seq<Entry>, n: nat): map<string, seq<Document>>
    requires n <= |entries|
  {
    if n == 0 then map[]
    else
      var documents := DocumentsUpTo(entries, n - 1);
      var e := entries[n - 1];
      if e.agencyId == "" then documents
      else documents[e.agencyId := DocsOf(documents, e.agencyId) + [e.document]]
  }

  /** agency_names after the first n entries: a kept entry's non-empty name
      overwrites its agency's earlier one. */
  function NamesUpTo(entries: seq<Entry>, n: nat): map<string, string>
    requires n <= |entries|
  {
    if n == 0 then map[]
    else
      var names := NamesUpTo(entries, n - 1);
      var e := entries[n - 1];
      if e.agencyId == "" || e.agencyName == "" then names else names[e.agencyId := e.agencyName]
  }

  /** The grouping after the first n entries. */
  function GroupUpTo(entries: seq<Entry>, n: nat): Grouping
    requires n <= |entries|
  {
    Grouping(OrderUpTo(entries, n), DocumentsUpTo(entries, n), NamesUpTo(entries, n))
  }

  /** The non-empty agency ids of the first n entries. */
  function KeptIds(entries: seq<Entry>, n: nat): (ids: set<string>)
    requires n <= |entries|
    ensures "" !in ids
  {
    if n == 0 then {}
    else KeptIds(entries, n - 1) + (if entries[n - 1].agencyId == "" then {} else {entries[n - 1].agencyId})
  }

  lemma {:induction false} OrderIds(entries: seq<Entry>, n: nat)
    requires n <= |entries|
    ensures forall id :: id in OrderUpTo(entries, n) <==> id in KeptIds(entries, n)
  {
    if n > 0 {
      OrderIds(entries, n - 1);
    }
  }

  lemma {:induction false} DocumentsIds(entries: seq<Entry>, n: nat)
    requires n <= |entries|
    ensures DocumentsUpTo(entries, n).Keys == KeptIds(entries, n)
  {
    if n > 0 {
      DocumentsIds(entries, n - 1);
    }
  }

  /** The listed ids are exactly the grouped agencies, none of them empty. */
  lemma OrderKeys(entries: seq<Entry>, n: nat)
    requires n <= |entries|
    ensures forall id :: id in OrderUpTo(entries, n) <==> id in DocumentsUpTo(entries, n)
    ensures "" !in DocumentsUpTo(entries, n)
  {
    OrderIds(entries, n);
    DocumentsIds(entries, n);
  }

  /** One turn of the row loop, which tests membership in the dictionary. */
  method GroupRow(row: CsvRow, summaries: map<string, SirSummary>, ghost entries: seq<Entry>, ghost i: nat, g: Grouping)
    returns (next: Grouping)
    requires i < |entries| && entries[i] == EntryOf(row, summaries)
    requires g == GroupUpTo(entries, i)
    ensures next == GroupUpTo(entries, i + 1)
  {
    var agencyId := Strip(Cell(row, "agency_id", ""));
    var agencyName := Strip(Cell(row, "agency_name", ""));
    if agencyId == "" {
      return g;
    }
    var names := g.names;
    if agencyName != "" {
      names := names[agencyId := agencyName];
    }
    var document := DocumentOf(row, summaries);
    var order := g.order;
    var docs: seq<Document> := [];
    OrderKeys(entries, i);
    if agencyId in g.documents {
      docs := g.documents[agencyId];
    } else {
      order := order + [agencyId];
    }
    next := Grouping(order, g.documents[agencyId := docs + [document]], names);
  }

  /** load_document_info_csv. */
  method LoadDocumentInfo(rows: seq<CsvRow>, summaries: map<string, SirSummary>) returns (g: Grouping)
    ensures g == GroupUpTo(Entries(rows, summaries), |rows|)
  {
    ghost var entries := Entries(rows, summaries);
    g := Grouping([], map[], map[]);
    assert g == GroupUpTo(entries, 0);
    for i := 0 to |rows|
      invariant |entries| == |rows|
      invariant g == GroupUpTo(entries, i)
    {
      assert entries[i] == EntryOf(rows[i], summaries);
      g := GroupRow(rows[i], summaries, entries, i, g);
    }
  }

  predicate Distinct(s: seq<string>) {
    forall i, j :: 0 <= i < j < |s| ==> s[i] != s[j]
  }

  /** Each agency is listed once. */
  lemma {:induction false} OrderDistinct(entries: seq<Entry>, n: nat)
    requires n <= |entries|
    ensures Distinct(OrderUpTo(entries, n))
  {
    if n > 0 {
      OrderDistinct(entries, n - 1);
      var prev := OrderUpTo(entries, n - 1);
      var id := entries[n - 1].agencyId;
      if id != "" && id !in prev {
        var order := prev + [id];
        forall i, j | 0 <= i < j < |order|
          ensures order[i] != order[j]
        {
          assert order[i] == prev[i] && prev[i] in prev;
          if j < |prev| {
            assert order[j] == prev[j];
          }
        }
      }
    }
  }

  /** Every named agency has documents. */
  lemma {:induction false} NamesKeys(entries: seq<Entry>, n: nat)
    requires n <= |entries|
    ensures forall id :: id in NamesUpTo(entries, n) ==> id in DocumentsUpTo(entries, n)
  {
    if n > 0 {
      NamesKeys(entries, n - 1);
    }
  }

  /** The ids listed in order are exactly the grouped agencies, each once,
      none empty; every named agency has documents. */
  ghost predicate WellFormed(g: Grouping) {
    && Distinct(g.order)
    && (forall id :: id in g.order <==> id in g.documents)
    && "" !in g.documents
    && (forall id :: id in g.names ==> id in g.documents)
  }

  lemma GroupWellFormed(entries: seq<Entry>, n: nat)
    requires n <= |entries|
    ensures WellFormed(GroupUpTo(entries, n))
  {
    OrderDistinct(entries, n);
    OrderKeys(entries, n);
    NamesKeys(entries, n);
  }

  /** The documents of agency `id` among the first n entries, in row order. */
  function RowDocuments(entries: seq<Entry>, n: nat, id: string): (docs: seq<Document>)
    requires n <= |entries|
    ensures |docs| <= n
  {
    if n == 0 then []
    else
      var docs := RowDocuments(entries, n - 1, id);
      if entries[n - 1].agencyId == id then docs + [entries[n - 1].document] else docs
  }

  /** Each agency's documents are its rows, in row order; an agency is
      grouped exactly when it has a row. */
  lemma {:induction false} GroupDocuments(entries: seq<Entry>, n: nat, id: string)
    requires n <= |entries| && id != ""
    ensures id in DocumentsUpTo(entries, n) <==> RowDocuments(entries, n, id) != []
    ensures DocsOf(DocumentsUpTo(entries, n), id) == RowDocuments(entries, n, id)
  {
    if n > 0 {
      GroupDocuments(entries, n - 1, id);
    }
  }

  /** The name kept for an agency is the one of its last row with a
      non-empty name. */
  lemma {:induction false} NameLastRowWins(entries: seq<Entry>, n: nat, i: nat)
    requires i < n <= |entries| && entries[i].agencyId != "" && entries[i].agencyName != ""
    requires forall j :: i < j < n ==> entries[j].agencyId != entries[i].agencyId || entries[j].agencyName == ""
    ensures entries[i].agencyId in NamesUpTo(entries, n)
    ensures NamesUpTo(entries, n)[entries[i].agencyId] == entries[i].agencyName
  {
    if i < n - 1 {
      NameLastRowWins(entries, n - 1, i);
    }
  }

  /** An agency has a name exactly when one of its rows has a non-empty name. */
  lemma {:induction false} NamedAgencies(entries: seq<Entry>, n: nat, id: string)
    requires n <= |entries|
    ensures id in NamesUpTo(entries, n) <==>
              exists i :: 0 <= i < n && entries[i].agencyId == id != "" && entries[i].agencyName != ""
  {
    if n > 0 {
      NamedAgencies(entries, n - 1, id);
      if entries[n - 1].agencyId == id != "" && entries[n - 1].agencyName != "" {
        assert 0 <= n - 1 < n;
      } else if exists i :: 0 <= i < n && entries[i].agencyId == id != "" && entries[i].agencyName != "" {
        var i :| 0 <= i < n && entries[i].agencyId == id != "" && entries[i].agencyName != "";
        assert i < n - 1;
      }
    }
  }

  // ---------------------------------------------------------------------------
  // generate_json_files
  // ---------------------------------------------------------------------------

  datatype Agency = Agency(agencyId: string, agencyName: string, documents: seq<Document>, totalReports: nat)

  /** The agency record of one id. */
  function AgencyOf(g: Grouping, id: string): (a: Agency)
    ensures a.totalReports == |a.documents|
    ensures a.agencyId == id
    ensures id !in g.names ==> a.agencyName == "Unknown Agency"
  {
    var docs := if id in g.documents then g.documents[id] else [];
    Agency(id, if id in g.names then g.names[id] else "Unknown Agency", docs, |docs|)
  }

  /** agency_data before sorting: one record per agency, in dictionary order. */
  function AgenciesUpTo(g: Grouping, k: nat): (agencies: seq<Agency>)
    requires k <= |g.order|
    ensures |agencies| == k
    ensures forall j :: 0 <= j < k ==> agencies[j] == AgencyOf(g, g.order[j])
  {
    if k == 0 then [] else AgenciesUpTo(g, k - 1) + [AgencyOf(g, g.order[k - 1])]
  }

  /** Insert an agency before the first one whose name is greater: inserting
      the records one by one in this way is the stable sort by name. */
  function InsertByName(a: Agency, sorted: seq<Agency>): (r: seq<Agency>)
    ensures |r| == |sorted| + 1
  {
    if sorted == [] then [a]
    else if LexLess(a.agencyName, sorted[0].agencyName) then [a] + sorted
    else [sorted[0]] + InsertByName(a, sorted[1..])
  }

  /** agency_data.sort(key=AgencyName) */
  function SortByName(agencies: seq<Agency>): (r: seq<Agency>)
    ensures |r| == |agencies|
  {
    if agencies == [] then []
    else InsertByName(agencies[|agencies| - 1], SortByName(agencies[..|agencies| - 1]))
  }

  predicate NameSorted(s: seq<Agency>) {
    forall i :: 0 <= i < |s| - 1 ==> LexLeq(s[i].agencyName, s[i + 1].agencyName)
  }

  /** The sum of the report counts. */
  function TotalReports(s: seq<Agency>): nat {
    if s == [] then 0 else TotalReports(s[..|s| - 1]) + s[|s| - 1].totalReports
  }

  lemma TotalReportsSnoc(s: seq<Agency>, a: Agency)
    ensures TotalReports(s + [a]) == TotalReports(s) + a.totalReports
  {
    assert (s + [a])[..|s|] == s;
  }

  lemma {:induction false} TotalReportsCons(a: Agency, s: seq<Agency>)
    ensures TotalReports([a] + s) == a.totalReports + TotalReports(s)
    decreases |s|
  {
    if s != [] {
      assert ([a] + s)[..|s|] == [a] + s[..|s| - 1];
      TotalReportsCons(a, s[..|s| - 1]);
    }
  }

  /** Inserting into a sorted list keeps it sorted, and the new first record
      is the one inserted or the old first one. */
  lemma {:induction false} InsertByNameSorted(a: Agency, sorted: seq<Agency>)
    requires NameSorted(sorted)
    ensures NameSorted(InsertByName(a, sorted))
    ensures InsertByName(a, sorted)[0] == a || (sorted != [] && InsertByName(a, sorted)[0] == sorted[0])
    decreases |sorted|
  {
    if sorted != [] && !LexLess(a.agencyName, sorted[0].agencyName) {
      var tail := sorted[1..];
      assert NameSorted(tail) by {
        forall i | 0 <= i < |tail| - 1 ensures LexLeq(tail[i].agencyName, tail[i + 1].agencyName) {
          assert tail[i] == sorted[i + 1] && tail[i + 1] == sorted[i + 2];
        }
      }
      var rest := InsertByName(a, tail);
      InsertByNameSorted(a, tail);
      LexTotal(a.agencyName, sorted[0].agencyName);
      var r := [sorted[0]] + rest;
      assert InsertByName(a, sorted) == r;
      forall i | 0 <= i < |r| - 1
        ensures LexLeq(r[i].agencyName, r[i + 1].agencyName)
      {
        if i > 0 {
          assert r[i] == rest[i - 1] && r[i + 1] == rest[i];
        }
      }
    }
  }

  /** Inserting adds the record to the multiset and keeps every other one. */
  lemma {:induction false} InsertByNamePermutes(a: Agency, sorted: seq<Agency>)
    ensures multiset(InsertByName(a, sorted)) == multiset(sorted) + multiset{a}
    decreases |sorted|
  {
    if sorted != [] && !LexLess(a.agencyName, sorted[0].agencyName) {
      InsertByNamePermutes(a, sorted[1..]);
      assert sorted == [sorted[0]] + sorted[1..];
    }
  }

  /** Inserting adds the record's count to the total. */
  lemma {:induction false} InsertByNameTotal(a: Agency, sorted: seq<Agency>)
    ensures TotalReports(InsertByName(a, sorted)) == a.totalReports + TotalReports(sorted)
    decreases |sorted|
  {
    if sorted == [] {
      assert TotalReports([a]) == TotalReports([a][..0]) + a.totalReports;
    } else if LexLess(a.agencyName, sorted[0].agencyName) {
      TotalReportsCons(a, sorted);
    } else {
      var tail := sorted[1..];
      InsertByNameTotal(a, tail);
      assert sorted == [sorted[0]] + tail;
      TotalReportsCons(sorted[0], InsertByName(a, tail));
      TotalReportsCons(sorted[0], tail);
    }
  }

  /** The sort orders by name. */
  lemma {:induction false} SortByNameSorted(agencies: seq<Agency>)
    ensures NameSorted(SortByName(agencies))
  {
    if agencies != [] {
      SortByNameSorted(agencies[..|agencies| - 1]);
      InsertByNameSorted(agencies[|agencies| - 1], SortByName(agencies[..|agencies| - 1]));
    }
  }

  /** The sort keeps every record: it is a permutation. */
  lemma {:induction false} SortByNamePermutes(agencies: seq<Agency>)
    ensures multiset(SortByName(agencies)) == multiset(agencies)
  {
    if agencies != [] {
      var init := agencies[..|agencies| - 1];
      SortByNamePermutes(init);
      InsertByNamePermutes(agencies[|agencies| - 1], SortByName(init));
      assert agencies == init + [agencies[|agencies| - 1]];
    }
  }

  /** The sort keeps the total of the report counts. */
  lemma {:induction false} SortByNameTotal(agencies: seq<Agency>)
    ensures TotalReports(SortByName(agencies)) == TotalReports(agencies)
  {
    if agencies != [] {
      var init := agencies[..|agencies| - 1];
      SortByNameTotal(init);
      InsertByNameTotal(agencies[|agencies| - 1], SortByName(init));
    }
  }

  /** One entry of agencies_summary.json. */
  datatype AgencySummary = AgencySummary(agencyId: string, agencyName: string, totalReports: nat)

  /** The summary list: the sorted agencies without their documents. */
  function SummaryList(agencies: seq<Agency>): (s: seq<AgencySummary>)
    ensures |s| == |agencies|
    ensures forall i :: 0 <= i < |agencies| ==>
              s[i] == AgencySummary(agencies[i].agencyId, agencies[i].agencyName, agencies[i].totalReports)
  {
    if agencies == [] then []
    else SummaryList(agencies[..|agencies| - 1]) + [AgencySummary(agencies[|agencies| - 1].agencyId,
                                                                  agencies[|agencies| - 1].agencyName,
                                                                  agencies[|agencies| - 1].totalReports)]
  }

  /** What generate_json_files writes: the sorted agency records and their summary. */
  datatype WebsiteFiles = WebsiteFiles(agencies: seq<Agency>, summary: seq<AgencySummary>)

  /** The two documents written for a grouping. */
  function FilesOf(g: Grouping): WebsiteFiles {
    var agencies := SortByName(AgenciesUpTo(g, |g.order|));
    WebsiteFiles(agencies, SummaryList(agencies))
  }

  function WebsiteFilesOf(documentRows: seq<CsvRow>, summariesFile: Option<seq<CsvRow>>): WebsiteFiles {
    FilesOf(GroupUpTo(Entries(documentRows, SummaryTable(summariesFile)), |documentRows|))
  }

  /** The agency records in the order their ids were first seen. */
  method CollectAgencies(g: Grouping) returns (agencyData: seq<Agency>)
    ensures agencyData == AgenciesUpTo(g, |g.order|)
  {
    agencyData := [];
    for k := 0 to |g.order|
      invariant agencyData == AgenciesUpTo(g, k)
    {
      agencyData := agencyData + [AgencyOf(g, g.order[k])];
    }
  }

  /** The summary entries of a list of agency records, one per record. */
  method Summarize(agencies: seq<Agency>) returns (summaryData: seq<AgencySummary>)
    ensures summaryData == SummaryList(agencies)
  {
    summaryData := [];
    for k := 0 to |agencies|
      invariant summaryData == SummaryList(agencies[..k])
    {
      assert agencies[..k + 1][..k] == agencies[..k];
      summaryData := summaryData + [AgencySummary(agencies[k].agencyId, agencies[k].agencyName, agencies[k].totalReports)];
    }
    assert agencies[..|agencies|] == agencies;
  }

  /** The agency records, sorted, and the summary list built from them. */
  method BuildFiles(g: Grouping) returns (files: WebsiteFiles)
    ensures files == FilesOf(g)
  {
    var agencyData := CollectAgencies(g);
    agencyData := SortByName(agencyData);
    var summaryData := Summarize(agencyData);
    files := WebsiteFiles(agencyData, summaryData);
  }

  /** generate_json_files, up to the two JSON documents it writes. */
  method GenerateJsonFiles(documentRows: seq<CsvRow>, summariesFile: Option<seq<CsvRow>>) returns (files: WebsiteFiles)
    ensures files == WebsiteFilesOf(documentRows, summariesFile)
  {
    var sirSummaries := LoadSirSummaries(summariesFile);
    var g := LoadDocumentInfo(documentRows, sirSummaries);
    files := BuildFiles(g);
  }

  /** The number of rows with a non-empty agency id among the first n. */
  function KeptRows(entries: seq<Entry>, n: nat): (c: nat)
    requires n <= |entries|
    ensures c <= n
  {
    if n == 0 then 0 else KeptRows(entries, n - 1) + (if entries[n - 1].agencyId != "" then 1 else 0)
  }

  /** The document count summed over the listed agencies. */
  function GroupedDocuments(order: seq<string>, documents: map<string, seq<Document>>): nat {
    if order == [] then 0
    else GroupedDocuments(order[..|order| - 1], documents) +
         (if order[|order| - 1] in documents then |documents[order[|order| - 1]]| else 0)
  }

  lemma GroupedDocumentsSnoc(order: seq<string>, id: string, documents: map<string, seq<Document>>)
    ensures GroupedDocuments(order + [id], documents) ==
            GroupedDocuments(order, documents) + (if id in documents then |documents[id]| else 0)
  {
    assert (order + [id])[..|order|] == order;
  }

  /** Changing the documents of an id that is not listed does not change the sum. */
  lemma {:induction false} GroupedDocumentsOther(order: seq<string>, documents: map<string, seq<Document>>, id: string, docs: seq<Document>)
    requires id !in order
    ensures GroupedDocuments(order, documents[id := docs]) == GroupedDocuments(order, documents)
  {
    if order != [] {
      GroupedDocumentsOther(order[..|order| - 1], documents, id, docs);
    }
  }

  /** Adding one document to an id listed once adds one to the sum. */
  lemma {:induction false} GroupedDocumentsAdd(order: seq<string>, documents: map<string, seq<Document>>, id: string, doc: Document)
    requires Distinct(order) && id in order && id in documents
    ensures GroupedDocuments(order, documents[id := documents[id] + [doc]]) == GroupedDocuments(order, documents) + 1
  {
    var init := order[..|order| - 1];
    assert Distinct(init);
    if order[|order| - 1] == id {
      assert id !in init;
      GroupedDocumentsOther(init, documents, id, documents[id] + [doc]);
    } else {
      assert id in init by {
        var k :| 0 <= k < |order| && order[k] == id;
        assert init[k] == id;
      }
      GroupedDocumentsAdd(init, documents, id, doc);
    }
  }

  /** One grouped row adds one to the sum, whether its agency is new or not. */
  lemma GroupedDocumentsStep(order: seq<string>, documents: map<string, seq<Document>>, id: string, doc: Document)
    requires Distinct(order) && forall x :: x in order <==> x in documents
    ensures GroupedDocuments(if id in order then order else order + [id], documents[id := DocsOf(documents, id) + [doc]])
            == GroupedDocuments(order, documents) + 1
  {
    if id in documents {
      GroupedDocumentsAdd(order, documents, id, doc);
    } else {
      assert id !in order && DocsOf(documents, id) + [doc] == [doc];
      GroupedDocumentsOther(order, documents, id, [doc]);
      var order' := order + [id];
      var documents' := documents[id := [doc]];
      assert order'[..|order'| - 1] == order && order'[|order'| - 1] == id;
      assert GroupedDocuments(order', documents') == GroupedDocuments(order, documents') + 1;
    }
  }

  /** Every kept row becomes exactly one listed document. */
  lemma {:induction false} GroupedAllRows(entries: seq<Entry>, n: nat)
    requires n <= |entries|
    ensures GroupedDocuments(OrderUpTo(entries, n), DocumentsUpTo(entries, n)) == KeptRows(entries, n)
  {
    if n > 0 {
      GroupedAllRows(entries, n - 1);
      var e := entries[n - 1];
      if e.agencyId != "" {
        var order, documents := OrderUpTo(entries, n - 1), DocumentsUpTo(entries, n - 1);
        OrderKeys(entries, n - 1);
        OrderDistinct(entries, n - 1);
        assert OrderUpTo(entries, n) == if e.agencyId in order then order else order + [e.agencyId];
        assert DocumentsUpTo(entries, n) == documents[e.agencyId := DocsOf(documents, e.agencyId) + [e.document]];
        GroupedDocumentsStep(order, documents, e.agencyId, e.document);
      }
    }
  }

  /** The records' total is the document sum over the listed agencies. */
  lemma {:induction false} AgenciesTotal(g: Grouping, k: nat)
    requires k <= |g.order|
    ensures TotalReports(AgenciesUpTo(g, k)) == GroupedDocuments(g.order[..k], g.documents)
  {
    if k > 0 {
      AgenciesTotal(g, k - 1);
      var id := g.order[k - 1];
      assert TotalReports(AgenciesUpTo(g, k)) == TotalReports(AgenciesUpTo(g, k - 1)) + AgencyOf(g, id).totalReports by {
        TotalReportsSnoc(AgenciesUpTo(g, k - 1), AgencyOf(g, id));
      }
      assert GroupedDocuments(g.order[..k], g.documents) ==
             GroupedDocuments(g.order[..k - 1], g.documents) + (if id in g.documents then |g.documents[id]| else 0) by {
        GroupedDocumentsSnoc(g.order[..k - 1], id, g.documents);
        PrefixStep(g.order, k - 1);
      }
      assert AgencyOf(g, id).totalReports == (if id in g.documents then |g.documents[id]| else 0);
    } else {
      assert g.order[..0] == [];
    }
  }

  /** Sorting keeps every record's count equal to its number of documents. */
  lemma SortKeepsCounts(agencies: seq<Agency>)
    requires forall i :: 0 <= i < |agencies| ==> agencies[i].totalReports == |agencies[i].documents|
    ensures forall i :: 0 <= i < |SortByName(agencies)| ==>
              SortByName(agencies)[i].totalReports == |SortByName(agencies)[i].documents|
  {
    var sorted := SortByName(agencies);
    SortByNamePermutes(agencies);
    forall i | 0 <= i < |sorted|
      ensures sorted[i].totalReports == |sorted[i].documents|
    {
      assert sorted[i] in multiset(agencies);
      var j :| 0 <= j < |agencies| && agencies[j] == sorted[i];
    }
  }

  /** The counts of the written records add up to the number of kept entries. */
  lemma FilesTotal(entries: seq<Entry>)
    ensures TotalReports(FilesOf(GroupUpTo(entries, |entries|)).agencies) == KeptRows(entries, |entries|)
  {
    var g := GroupUpTo(entries, |entries|);
    var unsorted := AgenciesUpTo(g, |g.order|);
    SortByNameTotal(unsorted);
    AgenciesTotal(g, |g.order|);
    assert g.order[..|g.order|] == g.order;
    GroupedAllRows(entries, |entries|);
  }

  /** The agencies are sorted by name, each record's count is its number of
      documents, and the counts add up to the number of kept entries. */
  lemma FilesSpec(entries: seq<Entry>)
    ensures var files := FilesOf(GroupUpTo(entries, |entries|));
      && NameSorted(files.agencies)
      && TotalReports(files.agencies) == KeptRows(entries, |entries|)
      && (forall i :: 0 <= i < |files.agencies| ==> files.agencies[i].totalReports == |files.agencies[i].documents|)
      && |files.summary| == |files.agencies|
  {
    var g := GroupUpTo(entries, |entries|);
    var unsorted := AgenciesUpTo(g, |g.order|);
    SortByNameSorted(unsorted);
    SortKeepsCounts(unsorted);
    FilesTotal(entries);
  }

  /** The website files: agencies sorted by name, each record's count its
      number of documents, the counts adding up to the number of rows with
      an agency id. */
  lemma WebsiteFilesSpec(documentRows: seq<CsvRow>, summariesFile: Option<seq<CsvRow>>)
    ensures var files := WebsiteFilesOf(documentRows, summariesFile);
      && NameSorted(files.agencies)
      && TotalReports(files.agencies) == KeptRows(Entries(documentRows, SummaryTable(summariesFile)), |documentRows|)
      && (forall i :: 0 <= i < |files.agencies| ==> files.agencies[i].totalReports == |files.agencies[i].documents|)
      && |files.summary| == |files.agencies|
  {
    FilesSpec(Entries(documentRows, SummaryTable(summariesFile)));
  }
}
