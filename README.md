# MCYJ downloader and data pipeline — a Dafny model

This project models the decision logic of the MCYJ pipeline. The pipeline downloads the licensing
documents of Michigan child-welfare agencies and extracts their text and metadata. It finds the
licensing rules each report says were violated, asks a language model for summaries and severity
levels, and builds the website's data files. The model covers the rules by which that code scopes,
orders, de-duplicates and selects. Regular expressions, JSON parsing and every kind of I/O appear
only as functions supplied by the caller.

Modules, one per source file (plus shared ones):

- `Violations` (parse_parquet_violations.py): the four citation scans. These are "Rule Code"
  sections with a window that ends at the next section, "APPLICABLE RULE" sections with a
  3,000-character window, and bare "R 400.x" and "MCL x.y" references with ±500 characters of
  context. The module covers each scan's verdict, the duplicate rules of the last three scans,
  the order of the families in the output, and that copy's inspection-date extractor.
- `DocumentInfo` (pdf_parsing/extract_document_info.py): the first-match-wins extractors for
  licence number, agency name, investigation number, inspection date and title; the 3,000-character
  header; the SIR flag; and `parse_document`.
- `LicensingRules` (parse_licensing_rules.py): page clean-up and the partition of the text at
  rule headers. It also covers the recursive split of each rule at `(1)`, `(a)` and `(i)` tokens,
  and the rule's name, label and History.
- `KeywordReduction` (website/keyword_reduction.py): loading the reduction table and the
  order-preserving map, discard and de-duplicate pass.
- `AiQueries`, `Selection`, `SirSummaries`, `SummaryQueries`, `ViolationLevels`
  (pdf_parsing/update_*.py):
  - loading a document's pages from the parquet rows;
  - selecting `sorted(all - existing)[:count]`;
  - prompt assembly;
  - recovering the JSON object from a reply, including the brace-depth scan;
  - the y/n flag and the severity-level normalisation;
  - the keyword clean-up;
  - the skip rules of each main loop and the level counts.
- `WebsiteData` (website/generate_website_data.py): loading the summaries, grouping documents by
  agency, the name-sorted agency records and their summary list.
- `FacilityInfo` (facility_information/pull_facility_info.py): loading the existing CSV, the
  upsert by licence number and the output in licence-number order.
- `Downloads` (mcyj_download.py) and `DownloadList` (get_download_list.py): the
  `<agency>_<title>_<date>.pdf` naming, the latest downloaded date, and the reconciliation of
  downloaded against listed names.
- Shared: `Strings` holds Python's whitespace, ASCII case folding, strip/split/join, slicing and
  code-point string order. `Dicts` holds dictionaries filled by successive assignments, where the
  last one wins. `Regex` holds the caller-supplied search. `Wrappers` holds Option and Result.

Most loops of the source are methods proved against a function that specifies them. The
first-match loops of pdf_parsing/extract_document_info.py, over a pattern list (lines 39-42,
57-63, 117-131, 160-163, 179-188) and over the leading header lines (lines 137-146), only compute a
value and return at their first hit; they are the recursive functions `DocumentInfo.FirstMatchFrom`
and `DocumentInfo.FirstTitleLine`. The properties are lemmas or `ensures` clauses on the
specifying functions.

Points where the code behaves differently from what a quick reading suggests, each modelled as
written:

- Only the "Rule Code" windows end at the next citation, and only at the next "Rule Code"
  citation (parse_parquet_violations.py:229-240). The "APPLICABLE RULE" window is fixed at 3,000
  characters (259-261), the "R 400" and "MCL" windows at 500 characters on each side (273-278,
  290-295). The output lists the families one after the other, not in text order.
- A "Rule Code" section counts as violated whenever its conclusion phrase occurs; otherwise it
  needs an "Analysis … violation" phrase and no negation phrase (parse_parquet_violations.py:244-249).
- Only the first family keeps duplicates; the other three append a reference only when it is not
  already listed: the containment filter reduces to membership (Violations.ContainingMember)
  (parse_parquet_violations.py:265-266, 282-284, 299-301).
- The SIR flag comes from the cover-letter sentence, the SIR heading or an investigation number in
  the first 3,000 characters, not from the title (pdf_parsing/extract_document_info.py:192-211).
- The extractors return None for an absent field (pdf_parsing/extract_document_info.py:44, 65,
  148, 165, 189); only the website data turns a missing agency name into "Unknown Agency"
  (website/generate_website_data.py:104).

The downloader names files after `agency_id`, while the reconciliation in get_download_list.py
builds the expected names from `agency_name`. Each half is modelled as written.

## Model

| member | source | states |
|---|---|---|
| KeywordReduction.StrippedRows | website/keyword_reduction.py:34-35 | one (original, reduction) pair per CSV row, both stripped |
| KeywordReduction.TableUpTo | website/keyword_reduction.py:33-39 | the empty original is never a key of the table |
| KeywordReduction.KeywordTable | website/keyword_reduction.py:27-29 | a missing file gives the empty table |
| KeywordReduction.LoadRow | website/keyword_reduction.py:34-39 | one loop iteration turns the table of the first i rows into the table of the first i+1 |
| KeywordReduction.LoadKeywordReductionMap | website/keyword_reduction.py:14-42 | the loop's dict is the table of all rows, empty for a missing file |
| KeywordReduction.TableKeys | website/keyword_reduction.py:33-39 | a string is a key iff it is non-empty and the stripped original of some row |
| KeywordReduction.TableLastRowWins | website/keyword_reduction.py:39 | a key maps to the stripped reduction of the last row that names it |
| KeywordReduction.Reduce | website/keyword_reduction.py:66 | a mapped keyword takes its value; an unmapped one is kept as it is |
| KeywordReduction.ReducedUpTo | website/keyword_reduction.py:64-75 | after n keywords the output has at most n entries |
| KeywordReduction.ReducedKeywords | website/keyword_reduction.py:58-59 | an empty map returns the input unchanged, duplicates included; the output is never longer than the input |
| KeywordReduction.ApplyKeywordReduction | website/keyword_reduction.py:45-77 | the loop over keywords with its `seen` set computes ReducedKeywords |
| KeywordReduction.Reductions | website/keyword_reduction.py:66 | the reduction of each keyword, position by position |
| KeywordReduction.ReducedUpToMembers | website/keyword_reduction.py:64-75 | the output holds exactly the non-empty reductions of the keywords seen so far |
| KeywordReduction.ReducedUpToOrder | website/keyword_reduction.py:72-75 | output order is the order of first occurrence among the reductions |
| KeywordReduction.ReducedUpToDistinct | website/keyword_reduction.py:73-75 | no reduced keyword is listed twice |
| KeywordReduction.ReducedKeywordsSpec | website/keyword_reduction.py:61-77 | with a non-empty map: distinct, exactly the non-empty reductions, in first-occurrence order |
| KeywordReduction.DiscardedNeverListed | website/keyword_reduction.py:68-70 | the empty reduction of a discarded keyword is never listed |
| Downloads.SanitizeAgency | mcyj_download.py:10 | as long as the stripped agency, with no ' ' or '/', each turned into '_' |
| Downloads.SanitizeName | mcyj_download.py:11 | as long as the stripped title, no ' ' or '/': spaces become '_' and slashes '-' |
| Downloads.FileInfoToFilename | mcyj_download.py:7-13 | the name is agency, '_', title, '_', date, ".pdf", each part at its offset |
| Downloads.FileDate | mcyj_download.py:28-30 | the captured date group is YYYY-MM-DD in digits |
| Downloads.DateOf | mcyj_download.py:24-30 | a name yields a date iff it matches the dated-pdf pattern, and the date is its group |
| Downloads.Somes | mcyj_download.py:26-30 | every collected value comes from one of the names |
| Downloads.SomesMembers | mcyj_download.py:26-30 | a value is collected iff some name yields it |
| Downloads.NameDates | mcyj_download.py:27-30 | the date of each name, position by position |
| Downloads.DatesUpToMembers | mcyj_download.py:26-30 | all_dates holds exactly the dates of the dated names |
| Downloads.Latest | mcyj_download.py:33-34 | the result is one of the dates and no date is later |
| Downloads.CollectDates | mcyj_download.py:26-30 | the loop appends the dates of the dated names, in order |
| Downloads.CheckDates | mcyj_download.py:32 | true iff strptime accepts every collected date |
| Downloads.GetOutputDirInfo | mcyj_download.py:15-39 | the method computes the directory reading as specified |
| Downloads.CalendarDatesOfNames | mcyj_download.py:24-32 | strptime accepts every collected date iff it accepts the date of every dated name |
| Downloads.OutputDirInfoSpec | mcyj_download.py:22-39 | success iff the directory is non-empty and every dated name's date is a calendar date (strptime); on success latest_date is None iff no name is dated, and otherwise a dated name's date that no other dated name's date exceeds |
| Downloads.MonthThirteenDated | mcyj_download.py:24-30 | "report_2023-13-01.pdf" passes the pattern |
| Downloads.MonthThirteenRaises | mcyj_download.py:32 | ... and so, as an instance of OutputDirInfoSpec, the directory reading fails at strptime |
| Downloads.DocumentDate | mcyj_download.py:67-71 | the parsed date when CreatedDate parses, else the raw text |
| Downloads.Filenames | mcyj_download.py:65-77 | one filename per input row |
| Downloads.FilenamesSpec | mcyj_download.py:65-77 | each row's filename starts with the cleaned agency_id and ends with its date (parsed, or raw when it does not parse) and ".pdf" |
| Downloads.PlanFrom | mcyj_download.py:57-77 | a run succeeds iff the directory read succeeds and an input file is given; then one filename per row |
| Downloads.PlanDownloads | mcyj_download.py:42-80 | the script's result is the directory reading followed by the row filenames |
| DownloadList.DownloadedFiles | get_download_list.py:7-12 | with lower, exactly the lowercased entries (each already lowercase); without, exactly the entries |
| DownloadList.StripDate | get_download_list.py:21 | a trailing `_YYYY-MM-DD.pdf` is cut off; any other name is unchanged |
| DownloadList.DownloadedNoDate | get_download_list.py:21 | every pdf download is listed with its date suffix removed, and every listed name comes from a pdf download |
| DownloadList.DownloadedNoDateMembers | get_download_list.py:21 | a name is listed iff a download is that name plus a `_YYYY-MM-DD.pdf` suffix, or the name is itself an undated pdf download |
| DownloadList.StripDateSuffix | get_download_list.py:21 | a stem followed by a date suffix ends in ".pdf" and strips back to the stem |
| DownloadList.StripDatedName | get_download_list.py:37-47 | for a pdf row, the expected dated name strips back to its undated name, so the two sides line up |
| DownloadList.NamedUpTo | get_download_list.py:35-47 | each row with its undated and dated names, in row order |
| DownloadList.CollectInfo | get_download_list.py:51 | expected_files_info is every row, in order |
| DownloadList.CollectToRow | get_download_list.py:50-52 | the undated names are exactly the keys of filename_to_row, each mapped to a row carrying it |
| DownloadList.CollectMembers | get_download_list.py:49-50 | the two name sets hold exactly the rows' names |
| DownloadList.CollectLastWins | get_download_list.py:52 | filename_to_row maps a name to the last row carrying it |
| DownloadList.ReadExpected | get_download_list.py:33-52 | the row loop computes the four collections, or fails at the first unparsable CreatedDate |
| DownloadList.ExpectedInfo | get_download_list.py:45 | reading succeeds iff every CreatedDate parses; then the info is all rows |
| DownloadList.ExpectedNoDate | get_download_list.py:47-50 | a name is expected without date iff some row produces it |
| DownloadList.ExpectedWithDate | get_download_list.py:45-49 | a name is expected with date iff some row produces it with its parsed date |
| DownloadList.ExpectedToRow | get_download_list.py:50-52 | keys of filename_to_row are the undated names, each mapped to a listed row with that name |
| DownloadList.ExpectedLastWins | get_download_list.py:52 | a later row with the same undated name overwrites an earlier one |
| DownloadList.Reconcile | get_download_list.py:57-58 | extra and missing are disjoint, each excludes the other side, and with the common names they cover both sides |
| DownloadList.SortedList | get_download_list.py:64 | sorted(): strictly increasing, same elements as the set |
| DownloadList.WriteMissing | get_download_list.py:75-102 | the loop writes the missing_files.csv content as specified |
| DownloadList.DownloadReport | get_download_list.py:14-105 | succeeds iff the list is readable and every date parses; then both, extra and missing are the sorted sets and missing_files.csv is built from them |
| DownloadList.MissingLinesSpec | get_download_list.py:86-93 | each data line carries the row under that name and the name with the row's extension; the names-only form arises only with nothing missing or no rows |
| DownloadList.MissingFromExpected | get_download_list.py:77-96 | from the collections' shape: every missing name has a listed row, so the blank-cell line at line 96 is never written |
| DownloadList.MissingFileSpec | get_download_list.py:57-102 | for an actual run: names-only output only when nothing is missing, else one line per missing name with a listed row of that name |
| FacilityInfo.UpsertKeys | facility_information/pull_facility_info.py:49-52 | a number is filed iff it was in the base or is the non-empty number of some entry |
| FacilityInfo.UpsertLastWins | facility_information/pull_facility_info.py:52 | the row filed under a number is the last entry carrying it |
| FacilityInfo.UpsertKeepsOthers | facility_information/pull_facility_info.py:97-105 | a base row that no entry mentions is kept as it was |
| FacilityInfo.UpsertKeyed | facility_information/pull_facility_info.py:100-105 | every filed row sits under its own LicenseNumber, and "" is never a key |
| FacilityInfo.Licenses | facility_information/pull_facility_info.py:101-102 | exactly the non-empty licence numbers of the entries |
| FacilityInfo.UpsertAll | facility_information/pull_facility_info.py:49-52 | the filing loop stores each entry with a number under it, in order |
| FacilityInfo.CsvKeyed | facility_information/pull_facility_info.py:50 | each CSV row with its LicenseNumber cell |
| FacilityInfo.LoadExistingData | facility_information/pull_facility_info.py:41-55 | the method loads ExistingData: nothing for a missing file |
| FacilityInfo.ExistingDataSpec | facility_information/pull_facility_info.py:43-52 | a missing file gives {}; a number is loaded iff some row carries it, with the last such row, never "" |
| FacilityInfo.ProjectColumnsSpec | facility_information/pull_facility_info.py:104 | the cut-down row has exactly the given columns, each the record's value or "" |
| FacilityInfo.Projected | facility_information/pull_facility_info.py:104 | the kept row has the record's own LicenseNumber |
| FacilityInfo.ProjectedColumns | facility_information/pull_facility_info.py:63-77 | the kept row has exactly keep_cols, each the record's value or "" |
| FacilityInfo.ApiKeyed | facility_information/pull_facility_info.py:100-104 | each API record, cut down, under its LicenseNumber |
| FacilityInfo.Upsert | facility_information/pull_facility_info.py:100-105 | the API loop computes the merged dict |
| FacilityInfo.MergedKeys | facility_information/pull_facility_info.py:97-105 | the merged numbers are the existing ones plus the API's non-empty ones |
| FacilityInfo.MergedKeepsCsvOnly | facility_information/pull_facility_info.py:98 | a CSV row the API does not mention is kept unchanged |
| FacilityInfo.MergedApiWins | facility_information/pull_facility_info.py:99-105 | an API record replaces the row under its number (the last such record wins) |
| FacilityInfo.CandidatesAreKeys | facility_information/pull_facility_info.py:49-52 | the merged keys are exactly the CSV numbers plus the API numbers |
| FacilityInfo.SortedKeys | facility_information/pull_facility_info.py:111 | sorted(existing_data.keys()): strictly increasing, exactly the merged keys |
| FacilityInfo.RowsOf | facility_information/pull_facility_info.py:111-112 | one written row per key, the row filed under it |
| FacilityInfo.PullFacilityInfo | facility_information/pull_facility_info.py:57-114 | main's written rows are PullRun's |
| FacilityInfo.RowsOfSpec | facility_information/pull_facility_info.py:111-114 | rows are written in strictly increasing licence order and their count is the dict size |
| FacilityInfo.MergedKeyed | facility_information/pull_facility_info.py:97-105 | every merged row sits under its own licence number |
| FacilityInfo.PullRunSpec | facility_information/pull_facility_info.py:83-114 | a failed fetch writes nothing; otherwise one row per merged number, in increasing order, covering every number |
| WebsiteData.SummariesUpTo | website/generate_website_data.py:28-36 | a row with an empty stripped sha is never filed |
| WebsiteData.SummaryTable | website/generate_website_data.py:22-24 | a missing or absent file gives {} |
| WebsiteData.LoadSirSummaries | website/generate_website_data.py:18-38 | the row loop builds the summary table |
| WebsiteData.SummaryKeys | website/generate_website_data.py:29-33 | a sha has a summary iff it is non-empty and some row's stripped sha |
| WebsiteData.SummaryLastRowWins | website/generate_website_data.py:33-36 | the summary kept is the 'response' and 'violation' of the last row with that sha |
| WebsiteData.DocumentOf | website/generate_website_data.py:62-74 | the SIR flag is the lowercased cell in {true, 1, yes}; sir_summary is attached iff the sha has one |
| WebsiteData.Entries | website/generate_website_data.py:51-53 | what the loop takes from each row, in row order |
| WebsiteData.KeptIds | website/generate_website_data.py:52-56 | the kept ids never include "" |
| WebsiteData.OrderIds | website/generate_website_data.py:55-76 | the agencies listed are exactly the non-empty stripped ids |
| WebsiteData.DocumentsIds | website/generate_website_data.py:55-76 | documents_by_agency has exactly the non-empty ids as keys |
| WebsiteData.OrderKeys | website/generate_website_data.py:52-56 | rows with an empty stripped agency_id are dropped: the listed agencies are the grouped ones, never "" |
| WebsiteData.GroupRow | website/generate_website_data.py:52-76 | one loop iteration extends the grouping by that row |
| WebsiteData.LoadDocumentInfo | website/generate_website_data.py:41-78 | the loop computes the grouping of all rows |
| WebsiteData.OrderDistinct | website/generate_website_data.py:102 | each agency is listed once |
| WebsiteData.NamesKeys | website/generate_website_data.py:55-60 | every named agency has documents |
| WebsiteData.GroupWellFormed | website/generate_website_data.py:43-78 | the grouping lists each agency once, exactly the non-empty grouped ids, and names only grouped ones |
| WebsiteData.RowDocuments | website/generate_website_data.py:76 | an agency has no more documents than rows |
| WebsiteData.GroupDocuments | website/generate_website_data.py:76 | each agency's documents are its rows' documents, in input row order |
| WebsiteData.NameLastRowWins | website/generate_website_data.py:59-60 | the name kept is the last non-empty name seen for the id |
| WebsiteData.NamedAgencies | website/generate_website_data.py:59-60 | an agency is named iff one of its rows has a non-empty name |
| WebsiteData.AgencyOf | website/generate_website_data.py:104-111 | total_reports is len(documents); an unnamed agency is 'Unknown Agency' |
| WebsiteData.AgenciesUpTo | website/generate_website_data.py:102-113 | one record per listed agency, in dictionary order |
| WebsiteData.InsertByName | website/generate_website_data.py:116 | inserting adds one record |
| WebsiteData.SortByName | website/generate_website_data.py:116 | sorting keeps the length |
| WebsiteData.InsertByNameSorted | website/generate_website_data.py:116 | insertion into a name-sorted list keeps it name-sorted |
| WebsiteData.InsertByNamePermutes | website/generate_website_data.py:116 | insertion adds exactly that record to the multiset |
| WebsiteData.InsertByNameTotal | website/generate_website_data.py:116 | insertion adds the record's count to the total |
| WebsiteData.SortByNameSorted | website/generate_website_data.py:116 | agencies are sorted by AgencyName |
| WebsiteData.SortByNamePermutes | website/generate_website_data.py:116 | the sort is a permutation of the records |
| WebsiteData.SortByNameTotal | website/generate_website_data.py:116 | the sort keeps the total of the reports |
| WebsiteData.SummaryList | website/generate_website_data.py:125-132 | the summary has the same order, ids, names and counts as the records |
| WebsiteData.CollectAgencies | website/generate_website_data.py:100-113 | the loop over the agencies builds one record per listed agency, in dictionary order |
| WebsiteData.Summarize | website/generate_website_data.py:125-132 | the loop builds one summary entry per record, in order |
| WebsiteData.BuildFiles | website/generate_website_data.py:100-132 | the records are built, sorted, then summarised |
| WebsiteData.GenerateJsonFiles | website/generate_website_data.py:81-140 | the two JSON documents are those of the grouped rows |
| WebsiteData.KeptRows | website/generate_website_data.py:55-56 | no more kept rows than rows |
| WebsiteData.GroupedAllRows | website/generate_website_data.py:55-76 | every kept row becomes exactly one listed document |
| WebsiteData.AgenciesTotal | website/generate_website_data.py:102-113 | the records' total equals the document count over the listed agencies |
| WebsiteData.SortKeepsCounts | website/generate_website_data.py:110-116 | after sorting each record's count is still its number of documents |
| WebsiteData.FilesTotal | website/generate_website_data.py:140 | the total of reports equals the number of kept rows |
| WebsiteData.FilesSpec | website/generate_website_data.py:100-140 | records sorted by name, each count its documents, total the kept rows, summary as long as the records |
| WebsiteData.WebsiteFilesSpec | website/generate_website_data.py:81-140 | the same for the files written from the document and summary CSVs |
| LicensingRules.CollapseBlankLines | parse_licensing_rules.py:39 | the text is empty iff its result is, and it starts with a newline iff the result does (its value is fixed by CollapseNoNewline, CollapseRun and CollapseConcat) |
| LicensingRules.CollapseNoNewline | parse_licensing_rules.py:39 | a text without newlines is left as it is |
| LicensingRules.CollapseRun | parse_licensing_rules.py:39 | a run of n newlines becomes min(n, 2) newlines |
| LicensingRules.NewlineRunAt | parse_licensing_rules.py:39 | the newline run at the start of a text ends exactly where its newlines do |
| LicensingRules.NewlineRunConcat | parse_licensing_rules.py:39 | the newline run of a + b runs into b only when a is all newlines |
| LicensingRules.CollapseConcat | parse_licensing_rules.py:39 | the collapse of a + b is the collapse of a followed by that of b when a and b do not meet inside a newline run; with the two lemmas above this pins the result of every text |
| LicensingRules.CollapseConcatRun | parse_licensing_rules.py:39 | the same when a starts with a newline run, which is collapsed on its own |
| LicensingRules.CollapseBlankLinesBounded | parse_licensing_rules.py:39 | after the collapse there are never three newlines in a row |
| LicensingRules.CollapseBlankLinesFixed | parse_licensing_rules.py:39 | a text without such a run is left unchanged |
| LicensingRules.CollapseBlankLinesIdempotent | parse_licensing_rules.py:39 | collapsing twice is collapsing once |
| LicensingRules.CleanPage | parse_licensing_rules.py:35-40 | a cleaned page is stripped and has no run of three newlines; it is the strip of the collapse of the page with the footer lines and then the courtesy lines substituted away |
| LicensingRules.CleanPages | parse_licensing_rules.py:31-40 | never more cleaned pages than pages |
| LicensingRules.CleanPagesShape | parse_licensing_rules.py:32-40 | one cleaned page per non-empty page, each the clean-up of a non-empty page |
| LicensingRules.CleanPagesLoop | parse_licensing_rules.py:31-40 | the page loop drops empty pages and appends the others cleaned, in order |
| LicensingRules.ClassRun | parse_licensing_rules.py:114-122 | the longest run of class characters from an offset |
| LicensingRules.TokenEnd | parse_licensing_rules.py:114-122 | a token found at an offset is at least three characters, from '(' to ')' |
| LicensingRules.TokenInner | parse_licensing_rules.py:114-122 | the characters inside a token's parentheses are of its class |
| LicensingRules.TokensDisjoint | parse_licensing_rules.py:64 | no token starts inside another |
| LicensingRules.Tokens | parse_licensing_rules.py:64 | the finditer matches are tokens, in order, not overlapping |
| LicensingRules.TokensStep | parse_licensing_rules.py:64 | the scan takes the token at its offset, or moves one character on |
| LicensingRules.TokensComplete | parse_licensing_rules.py:64 | every token in the text is among the matches |
| LicensingRules.TokenGap | parse_licensing_rules.py:70-71 | between one token's end and the next token's start no token starts |
| LicensingRules.TokenId | parse_licensing_rules.py:69 | the id has no parentheses or whitespace |
| LicensingRules.TokenIdKeeps | parse_licensing_rules.py:69 | a text with nothing to drop is its own id |
| LicensingRules.TokenIdInner | parse_licensing_rules.py:68-69 | a token's id is the text between its parentheses |
| LicensingRules.SplitByToken | parse_licensing_rules.py:57-74 | None iff the text has no token; otherwise one part per token |
| LicensingRules.PartsOf | parse_licensing_rules.py:67-73 | one part per token |
| LicensingRules.NextPart | parse_licensing_rules.py:68-73 | one loop pass builds the part of token j |
| LicensingRules.PartsLoop | parse_licensing_rules.py:67-73 | the loop builds all parts, in order |
| LicensingRules.SplitParts | parse_licensing_rules.py:57-74 | the method computes split_by_token |
| LicensingRules.TokenIsId | parse_licensing_rules.py:68-69 | a token's id is digits, one lower-case letter, or roman letters, as its kind says |
| LicensingRules.TokenPartId | parse_licensing_rules.py:68-73 | part j carries a well-formed id of its kind |
| LicensingRules.PartIds | parse_licensing_rules.py:57-74 | every part's id is well formed for its kind |
| LicensingRules.PartTextHasNoToken | parse_licensing_rules.py:70-72 | a part's text runs from its token's end to the next token's start, and no token starts inside it |
| LicensingRules.WithRoman | parse_licensing_rules.py:121-140 | the id and text are kept; roman sub-parts are attached iff the text has a roman token |
| LicensingRules.NumberedCondition | parse_licensing_rules.py:116-131 | a numbered condition keeps its id and text |
| LicensingRules.Conditions | parse_licensing_rules.py:110-141 | no numbered and no lettered token gives no conditions |
| LicensingRules.ConditionsPrecedence | parse_licensing_rules.py:113-141 | numbered parts take precedence, one condition per numbered token; only without them one per lettered token |
| LicensingRules.RomanPart | parse_licensing_rules.py:122-124 | one pass of the roman loop attaches the roman sub-parts |
| LicensingRules.AttachRoman | parse_licensing_rules.py:121-124 | the loop attaches roman sub-parts to every lettered part |
| LicensingRules.NumberedPart | parse_licensing_rules.py:116-131 | one pass of the numbered loop attaches lettered or roman sub-parts |
| LicensingRules.BuildConditions | parse_licensing_rules.py:110-141 | the condition loops compute Conditions |
| LicensingRules.RulePrefixEndSpec | parse_licensing_rules.py:83-88 | the prefix end is positive iff the text starts with whitespace, 'R', whitespace, digits '.' digits, whitespace; then the text up to it has that shape and no prefix of that shape is longer |
| LicensingRules.RulePrefixLongest | parse_licensing_rules.py:83-88 | any prefix of the `\s*R\s*\d+\.\d+\s*` shape ends at or before the prefix end found |
| LicensingRules.DropRuleNumber | parse_licensing_rules.py:83-88 | the text after the rule-number prefix: exactly RulePrefixEnd characters are dropped from the front, none when there is no prefix |
| LicensingRules.DropPeriod | parse_licensing_rules.py:89-91 | one trailing period is removed and the rest stripped; otherwise the text is kept |
| LicensingRules.RuleName | parse_licensing_rules.py:86-91 | the header without its rule-number prefix, stripped; a trailing period is then removed and the rest stripped again; the name is stripped and no longer than the header |
| LicensingRules.RuleLabelShapeRuns | parse_licensing_rules.py:94 | where `\bRule\s+(\d+)\b` matches, its whitespace and digit runs are the maximal ones |
| LicensingRules.RuleLabelAt | parse_licensing_rules.py:94 | Some exactly when "Rule" at a word boundary, at least one whitespace character and digits ending at a word boundary match at the offset, and then the value is those digits |
| LicensingRules.FindRuleLabel | parse_licensing_rules.py:94 | None iff no offset from i on matches; otherwise the digits of the match at the first offset that matches |
| LicensingRules.LastSegment | parse_licensing_rules.py:98 | the last piece of split('.') has no '.' |
| LicensingRules.RuleLabel | parse_licensing_rules.py:93-99 | "Rule " plus the first "Rule N" digits when present, otherwise plus the part after the rule number's last '.' |
| LicensingRules.NextDot | parse_licensing_rules.py:103 | the first '.' at or after the offset |
| LicensingRules.HistoryAt | parse_licensing_rules.py:103 | a match starts with "History:" at the offset, ends with '.', and its history ends with '.' |
| LicensingRules.HistoryAtSpec | parse_licensing_rules.py:103 | where the label is at the offset, the history runs from the end of the whitespace after it to the first '.' after that character; when there is no such '.' and the whitespace is followed directly by '.', the whitespace gives back its last character, which with that '.' is the history; nothing matches in every other case |
| LicensingRules.FindHistory | parse_licensing_rules.py:103 | re.search: None iff no offset from i on matches; otherwise the match at the first offset that matches |
| LicensingRules.SplitHistory | parse_licensing_rules.py:101-108 | without a History segment the text is kept and History is None; otherwise the segment is cut out and its text stored, both stripped |
| LicensingRules.BuildRule | parse_licensing_rules.py:77-149 | name, label and conditions are built as above; text and History are the body's split at its history segment; History is None iff no segment is found, and then the text is the body without its rule number |
| LicensingRules.RawRuleTextWithin | parse_licensing_rules.py:76-80 | rule i's raw text lies between its header's start and the next header's start (or the end) |
| LicensingRules.RuleNumbers | parse_licensing_rules.py:77 | the number of each header is its first group |
| LicensingRules.RulesOf | parse_licensing_rules.py:76-149 | one rule per header |
| LicensingRules.ParsedRules | parse_licensing_rules.py:51-55 | no header match gives the empty dict |
| LicensingRules.ParsedRuleNumbers | parse_licensing_rules.py:143 | the keys are exactly the numbers the headers cite |
| LicensingRules.LastHeaderWins | parse_licensing_rules.py:143 | a repeated rule number keeps the rule of its last header |
| LicensingRules.RuleFromMatch | parse_licensing_rules.py:77-149 | one pass of the rule loop builds the rule of header i |
| LicensingRules.StoreRule | parse_licensing_rules.py:143-149 | one pass stores it under its number |
| LicensingRules.RuleLoop | parse_licensing_rules.py:76-149 | the loop stores each header's rule in order |
| LicensingRules.ParseRulesFromPages | parse_licensing_rules.py:14-151 | the method computes the parsed rules of the pages |
| Violations.DenialMentionsViolation | parse_parquet_violations.py:281-282 | each negation phrase also matches the violation-word pattern, so a denied reference has been mentioned |
| Violations.Citations | parse_parquet_violations.py:222-291 | one citation per match, with its span and the stripped text of the rule group |
| Violations.RuleWindow | parse_parquet_violations.py:229-240 | the text from the citation's start to the next "Rule Code" citation's start; for the last one, to 50,000 characters further or the end of the text; empty when the start is past the end |
| Violations.ApplicableWindow | parse_parquet_violations.py:259-262 | the text from the citation's start to 3,000 characters further or the end of the text |
| Violations.ReferenceWindow | parse_parquet_violations.py:276-278 | the text from 500 characters before the reference (or the start) to 500 characters after it (or the end); at most 1,000 characters longer than the reference |
| Violations.Verdicts | parse_parquet_violations.py:244-299 | each citation's verdict is its family's phrase test on its own window |
| Violations.Kept | parse_parquet_violations.py:224-249 | no more entries than citations |
| Violations.Containing | parse_parquet_violations.py:266-300 | the comprehension keeps exactly the entries containing the reference |
| Violations.ContainingMember | parse_parquet_violations.py:266-300 | the duplicate test amounts to plain membership in the list |
| Violations.AppendNewSnoc | parse_parquet_violations.py:266-267 | a candidate is appended iff it is not already present |
| Violations.AppendIfNew | parse_parquet_violations.py:283-284 | the list grows by the entry iff violated and not yet listed |
| Violations.JudgeRuleSection | parse_parquet_violations.py:244-249 | a section is violated iff its conclusion says so, or the analysis mentions a violation and no negation occurs |
| Violations.KeptStep | parse_parquet_violations.py:244-249 | the list grows by "Rule " + ref exactly when the verdict is positive |
| Violations.RuleCodeStep | parse_parquet_violations.py:225-249 | one pass of the first loop |
| Violations.ScanRuleCodes | parse_parquet_violations.py:221-249 | the first loop lists every violated section in text order, without a duplicate check |
| Violations.ApplicableStep | parse_parquet_violations.py:257-267 | one pass of the APPLICABLE RULE loop |
| Violations.ScanApplicableRules | parse_parquet_violations.py:253-267 | the loop appends "R " + ref for each violated citation not yet listed |
| Violations.ReferenceStep | parse_parquet_violations.py:274-284 | one pass of an R 400 or MCL loop |
| Violations.ScanReferences | parse_parquet_violations.py:270-301 | the loop appends each violated reference not yet listed |
| Violations.ExtractViolations | parse_parquet_violations.py:214-303 | the four loops in sequence compute the violation list |
| Violations.AppendNewSpec | parse_parquet_violations.py:266-301 | the list extended keeps its prefix, gains exactly the candidates, and the appended entries are distinct and new |
| Violations.KeptCount | parse_parquet_violations.py:245-249 | one entry per violated section: a rule cited twice appears twice |
| Violations.KeptMember | parse_parquet_violations.py:245-249 | an entry is listed iff some citation with a positive verdict gives it |
| Violations.EntriesSpec | parse_parquet_violations.py:224-249 | a family's entries are exactly those of its violated citations, one per citation |
| Violations.ViolationListShape | parse_parquet_violations.py:214-303 | first-family entries come first in text order; then APPLICABLE RULE, R 400 and MCL entries, each new and distinct; the members are the union of the families |
| Violations.RuleJudgedLocally | parse_parquet_violations.py:229-249 | a section's verdict depends only on the text of its own window, so a conclusion after the next citation is never attributed to it |
| Violations.NoCitationsNoViolations | parse_parquet_violations.py:214-303 | no citation means an empty list |
| Violations.DateGroupByParens | parse_parquet_violations.py:183 | group 1 when the pattern has more than one '(', else the whole match |
| Violations.InspectionDate | parse_parquet_violations.py:169-189 | None iff no pattern matches; otherwise the first matching pattern's chosen text with whitespace collapsed |
| Violations.CaptureParens | parse_parquet_violations.py:175 | the rest-of-line capture has one '(' |
| Violations.IntakeDateLabelParens | parse_parquet_violations.py:175 | the intake-date pattern has just one '(' |
| Violations.DatePatternParens | parse_parquet_violations.py:173-175 | the two on-site patterns have more than one '(', the intake pattern exactly one |
| Violations.OnSiteDatesAgree | parse_parquet_violations.py:173-183 | for the on-site labels both date extractors return the captured date |
| Violations.IntakeDatesDiffer | parse_parquet_violations.py:175-183 | for the intake label this copy returns the whole match, label included, while the other returns the date |
| Violations.ParseDocument | parse_parquet_violations.py:306-327 | pages joined with '\n'; num_violations is the list's length; the agency id, agency name, title text, date and SIR flag are those the DocumentInfo extractors (and the violations date group) read from the joined text |
| DocumentInfo.Header | pdf_parsing/extract_document_info.py:80 | the header is the first min(3000, len) characters of the text |
| DocumentInfo.FirstMatch | pdf_parsing/extract_document_info.py:39-44 | None iff no pattern matches; otherwise the first pattern in list order that matches, with its match |
| DocumentInfo.FirstMatchFrom | pdf_parsing/extract_document_info.py:39-44 | the same from pattern k on |
| DocumentInfo.CleanValue | pdf_parsing/extract_document_info.py:60-62 | strip then whitespace collapse: no leading, trailing or doubled whitespace |
| DocumentInfo.LicenseNumber | pdf_parsing/extract_document_info.py:30-44 | None iff no license pattern matches; otherwise group 1 of the first pattern that does |
| DocumentInfo.AgencyName | pdf_parsing/extract_document_info.py:47-65 | None iff no label matches; otherwise the rest of the line after the first matching label, space-normalised |
| DocumentInfo.InvestigationNumber | pdf_parsing/extract_document_info.py:151-165 | None iff no pattern matches; otherwise group 1 of the first that does |
| DocumentInfo.DateGroup | pdf_parsing/extract_document_info.py:183 | group 1 when a group took part (lastindex), else the whole match |
| DocumentInfo.InspectionDate | pdf_parsing/extract_document_info.py:168-189 | None iff no date pattern matches; otherwise the first one's chosen text, space-normalised |
| DocumentInfo.CleanTitle | pdf_parsing/extract_document_info.py:120-145 | spacing normalised; an all-upper-case title is title-cased (str.title()), any other is left as it is |
| DocumentInfo.Appended | pdf_parsing/extract_document_info.py:87-131 | the number is appended iff it is a non-empty string |
| DocumentInfo.FirstTitleLine | pdf_parsing/extract_document_info.py:137-146 | the first line that is non-empty, ends in REPORT/STUDY/INSPECTION/INVESTIGATION and is shorter than 100 characters |
| DocumentInfo.LeadingLines | pdf_parsing/extract_document_info.py:136-137 | at most ten lines are looked at |
| DocumentInfo.HeadingTitle | pdf_parsing/extract_document_info.py:117-131 | None iff no heading matches the header; otherwise the first that does: its match stripped, spacing normalised and title-cased when all upper case, followed by " #" and the number exactly when a number is given and the title's upper case contains "SPECIAL INVESTIGATION" |
| DocumentInfo.LineTitle | pdf_parsing/extract_document_info.py:134-148 | None iff none of the first ten lines qualifies; otherwise the first that does, stripped, spacing normalised and title-cased when all upper case, without a number |
| DocumentInfo.DocumentTitle | pdf_parsing/extract_document_info.py:68-148 | read from the header only: the cover-letter sentence gives "Special Investigation Report" with " #" and the investigation number when that is non-empty; else the heading title; else the line title; else None |
| DocumentInfo.ParseDocument | pdf_parsing/extract_document_info.py:214-232 | pages joined with '\n'; each field is read from the joined text |
| DocumentInfo.IsSpecialInvestigation | pdf_parsing/extract_document_info.py:192-211 | the SIR flag is set iff the first 3000 characters hold the cover-letter sentence (case-insensitive), match the SIR heading pattern, or hold an investigation number |
| DocumentInfo.SirTitleIsFlagged | pdf_parsing/extract_document_info.py:84-211 | a cover-letter title or an SIR-heading title implies the SIR flag |
| DocumentInfo.NumberedTitleIsFlagged | pdf_parsing/extract_document_info.py:86-209 | a title with an investigation number implies the SIR flag |
| DocumentInfo.HeaderDecides | pdf_parsing/extract_document_info.py:80-208 | two texts with the same first 3000 characters get the same title and flag |
| AiQueries.InfoOf | pdf_parsing/update_summaryqueries.py:84-89 | each descriptive field is the cell's text when present and '' when the cell is missing |
| AiQueries.ShasOf | pdf_parsing/update_summaryqueries.py:320 | the shas of the SIR list, position by position |
| AiQueries.InfosOf | pdf_parsing/update_summaryqueries.py:321 | the descriptive fields of the SIR list, position by position |
| AiQueries.SirShas | pdf_parsing/update_sir_summaries.py:68-89 | a sha is listed exactly when some row flagged as a special investigation carries it |
| AiQueries.ExistingShas | pdf_parsing/update_sir_summaries.py:92-113 | a missing or unreadable output file gives the empty set; otherwise exactly the shas in its sha256 column |
| AiQueries.PagesOf | pdf_parsing/update_sir_summaries.py:129-138 | a string not bracketed after stripping, or a null cell, gives no pages; a list is kept; only a failing literal_eval of a bracketed string gives no result |
| AiQueries.FirstRowIndex | pdf_parsing/update_sir_summaries.py:124-127 | the first row with the sha, or the row count when none has it; no earlier row has the sha |
| AiQueries.DocumentIn | pdf_parsing/update_sir_summaries.py:124-146 | a document found carries the sha and its full text is its pages joined with a blank line; a file with no row for the sha yields none |
| AiQueries.FindDocument | pdf_parsing/update_sir_summaries.py:121-151 | a document found carries the sha and the join of its pages |
| AiQueries.FindDocumentFirst | pdf_parsing/update_sir_summaries.py:121-151 | the files are tried in order: the result is the document of the first file that yields one, and there is none exactly when no file yields one |
| AiQueries.LoadDocument | pdf_parsing/update_sir_summaries.py:116-151 | the loop with its early return computes the first-file search |
| AiQueries.NormalizeViolationFlag | pdf_parsing/update_sir_summaries.py:234-237 | always 'y' or 'n'; 'y' exactly when the lowercased flag is 'y', or is not 'n' and mentions "yes" or "substantiated" |
| AiQueries.NormalizeViolationFlagIdempotent | pdf_parsing/update_sir_summaries.py:236-237 | normalising a normalised flag changes nothing |
| AiQueries.UnsubstantiatedReadsAsViolation | pdf_parsing/update_sir_summaries.py:237 | "Unsubstantiated" reads as a violation, because it contains "substantiated" |
| AiQueries.ParseSummaryReply | pdf_parsing/update_sir_summaries.py:223-249 | the violation is '', 'y' or 'n'; it is '' (and the summary '') exactly when the chosen text (the pattern's match, else the whole reply) is not a JSON object whose violation is a string; otherwise the flag is the normalised violation and the summary is the object's summary, '' by default |
| Selection.Without | pdf_parsing/update_sir_summaries.py:328 | at most as many elements as the input, and exactly the listed elements that are not already processed |
| Selection.SelectMissingSpec | pdf_parsing/update_sir_summaries.py:322-336 | sorted(set(all) - existing)[:count] is strictly increasing, holds only listed unprocessed shas, has min(count, missing) elements, and every unprocessed sha left out sorts after every one selected |
| Dicts.KeysOfCited | pdf_parsing/update_summaryqueries.py:321 | after a run of assignments, a key is in the dictionary exactly when one of the assignments used it |
| Dicts.AssignLastWins | pdf_parsing/update_summaryqueries.py:321 | the value left under a key is the one of its last assignment |
| SirSummaries.Prompt | pdf_parsing/update_sir_summaries.py:170 | the fixed opening, then the document, then "\n\n", then the query |
| SirSummaries.RecordFor | pdf_parsing/update_sir_summaries.py:348-384 | a record carries the sha, a non-empty summary and a 'y'/'n' flag, and these are the parsed reply's; there is a record exactly when the document is found, the request answers, and the parsed summary is sliceable and non-empty with a non-empty flag |
| SirSummaries.RecordsUpToSpec | pdf_parsing/update_sir_summaries.py:343-384 | every record comes from one of the shas processed so far and has a non-empty summary and a 'y'/'n' flag |
| SirSummaries.QueryStep | pdf_parsing/update_sir_summaries.py:343-393 | one turn of the loop appends exactly the record of the current sha, or nothing when it is skipped |
| SirSummaries.UpdateSirSummaries | pdf_parsing/update_sir_summaries.py:314-397 | the rows appended are those of the run: selection, then one record per answered and parsed sha, in order |
| SirSummaries.SummaryRunSpec | pdf_parsing/update_sir_summaries.py:314-397 | with document_info.csv present the run succeeds, appends at most count rows, each for a SIR row without a summary yet, with a non-empty summary and a 'y'/'n' flag |
| SummaryQueries.Prompt | pdf_parsing/update_summaryqueries.py:172 | the prompt is the query, a blank line, then the document |
| SummaryQueries.SirsUpTo | pdf_parsing/update_summaryqueries.py:77-90 | at most one entry per row read |
| SummaryQueries.SirsUpToMembers | pdf_parsing/update_summaryqueries.py:77-90 | an entry is listed exactly when some row flagged as a special investigation has its sha and, with missing cells read as '', its fields |
| SummaryQueries.GetAllSirInfo | pdf_parsing/update_summaryqueries.py:60-92 | a missing document_info.csv is an error; otherwise the SIR list in row order |
| SummaryQueries.RecordFor | pdf_parsing/update_summaryqueries.py:346-389 | a record carries the sha, the query and the sha's fields, and the summary and flag of the parsed reply; there is no record exactly when the document is missing, the request fails or the summary cannot be sliced |
| SummaryQueries.AnsweredCount | pdf_parsing/update_summaryqueries.py:342-398 | the number of answered shas is at most the number processed |
| SummaryQueries.RecordsUpToCount | pdf_parsing/update_summaryqueries.py:375-389 | one record per answered sha: an unparsed reply is still recorded |
| SummaryQueries.RecordsUpToShas | pdf_parsing/update_summaryqueries.py:342-398 | each record is for one of the shas processed so far |
| SummaryQueries.QueryStep | pdf_parsing/update_summaryqueries.py:342-398 | one turn of the loop appends exactly the record of the current sha, or nothing when it is skipped |
| SummaryQueries.UpdateSummaryQueries | pdf_parsing/update_summaryqueries.py:312-402 | the rows appended are those of the run |
| SummaryQueries.SirShaFromRow | pdf_parsing/update_summaryqueries.py:77-90 | every sha of the SIR list is the sha of a row flagged as a special investigation |
| SummaryQueries.QueryRunSpec | pdf_parsing/update_summaryqueries.py:312-402 | with document_info.csv present the run succeeds, appends one record per answered selected sha, at most count, each for a SIR row without a record yet |
| ViolationLevels.SirsUpTo | pdf_parsing/update_violation_levels.py:112-127 | at most one candidate per row read |
| ViolationLevels.SirsUpToMembers | pdf_parsing/update_violation_levels.py:112-127 | a candidate is listed exactly when some row has violation 'y', with its sha and, with missing cells read as '', its fields |
| ViolationLevels.GetSirsWithViolations | pdf_parsing/update_violation_levels.py:96-129 | a missing summaries file is an error; otherwise the candidates in row order |
| ViolationLevels.NormalizeViolationLevel | pdf_parsing/update_violation_levels.py:194-216 | the result is always 'low', 'moderate', 'severe' or '' |
| ViolationLevels.ExactLevelsAreExclusive | pdf_parsing/update_violation_levels.py:205-214 | none of the three exact levels mentions a phrase an earlier substring check looks for |
| ViolationLevels.NormalizeLevelPrecedence | pdf_parsing/update_violation_levels.py:204-216 | each outcome, in both directions: 'low' iff the lowercased text mentions "low"; 'moderate' iff not and it mentions "moderate" or "medium"; 'severe' iff none of those and it mentions "severe" or "high"; '' iff none of the five |
| ViolationLevels.NormalizeViolationLevelIdempotent | pdf_parsing/update_violation_levels.py:204-216 | every output normalises to itself |
| ViolationLevels.NormalizeIgnoresCase | pdf_parsing/update_violation_levels.py:204 | lowercasing the input first changes nothing |
| ViolationLevels.ScanFromFirst | pdf_parsing/update_violation_levels.py:316-335 | the scan stops at the first point where the depth from the first '{' returns to 0 and the candidate is valid JSON; all earlier such candidates are invalid; it runs out exactly when there is none |
| ViolationLevels.BraceScan | pdf_parsing/update_violation_levels.py:313-335 | the brace-counting loop with its break and for-else computes the scan |
| ViolationLevels.ReplyObject | pdf_parsing/update_violation_levels.py:304-338 | a reply that parses as an object is used whole; one that parses to something else fails; one that does not parse fails with "No JSON object found in response" when it holds no '{', and otherwise succeeds exactly when the brace scan from the first '{' finds an object, with that object's fields, failing when the scan is exhausted |
| ViolationLevels.NormalizeKeywords | pdf_parsing/update_violation_levels.py:343-348 | null gives [], a list is kept, a non-empty string or truthy other value gives the one-element list of its text, a falsy value gives [] |
| ViolationLevels.ValidateLevel | pdf_parsing/update_violation_levels.py:340-363 | success exactly when the level is a string that does not normalise to ''; the level is then the normalised "level" field, one of the three, the justification is the "justification" field ('' by default) and the keywords are the normalised "keywords" field |
| ViolationLevels.LevelOf | pdf_parsing/update_violation_levels.py:304-363 | never a result with an empty level; a reply whose object cannot be recovered is an error; otherwise the result is the validation of the recovered object, of the whole reply when it parses as one |
| ViolationLevels.ParseLevelReply | pdf_parsing/update_violation_levels.py:304-363 | the parsing with its brace scan computes the outcome above |
| ViolationLevels.RecordFor | pdf_parsing/update_violation_levels.py:479-523 | a record exactly when the document is found, the request answers, the reply validates and its justification can be sliced; the record carries the sha, the sha's fields and the level, justification and keywords of the validated reply |
| ViolationLevels.RecordsUpToSpec | pdf_parsing/update_violation_levels.py:474-535 | every record comes from a sha processed so far, has one of the three levels and that sha's fields |
| ViolationLevels.QueryStep | pdf_parsing/update_violation_levels.py:474-535 | one turn of the loop appends exactly the record of the current sha, or nothing when it is skipped |
| ViolationLevels.UpdateViolationLevels | pdf_parsing/update_violation_levels.py:431-539 | the rows appended are those of the run; a missing instructions file or summaries file ends it with an error |
| ViolationLevels.LevelRunSpec | pdf_parsing/update_violation_levels.py:440-535 | with both input files present the run succeeds, appends at most max_count rows, each with one of the three levels, for a sha with violation 'y' that had no level yet |
| ViolationLevels.Occurrences | pdf_parsing/update_violation_levels.py:564-567 | a level occurs at most once per record |
| ViolationLevels.LevelCounts | pdf_parsing/update_violation_levels.py:564-567 | the counting loop computes the level distribution |
| ViolationLevels.CountsUpToOccurrences | pdf_parsing/update_violation_levels.py:564-567 | a level is a key exactly when some record has it, and its count is the number of records that have it |
| ViolationLevels.OccurrencesSum | pdf_parsing/update_violation_levels.py:564-567 | when every record has one of the three levels, the three counts add up to the number of records |

## Left out

- Regular expressions: every `re.search` and `re.finditer` with a non-trivial pattern is a caller-supplied function, known by the pattern's source text. The model proves what the code does around the matches: first match in list order, windows, ordering, duplicates. It does not prove what a pattern matches. Literal phrases (conclusion and negation phrases, the `(1)`/`(a)`/`(i)` tokens, "History:", "Rule N", the `_YYYY-MM-DD.pdf` suffix) are scanned concretely instead.
- Case folding: `re.IGNORECASE`, `str.lower`, `str.upper`, `str.title` and `str.isupper` are modelled for ASCII letters only. `\d` and `\w` are ASCII, and `\s` is Python's whitespace set.
- `json.loads`, `ast.literal_eval`, and `datetime.strptime` of CreatedDate are caller-supplied functions. A JSON value is seen only as the post-processing sees it: its kind, its `str()` and its truthiness. `strptime(d, '%Y-%m-%d')` on downloaded names is modelled concretely as the calendar check; rendering years below 1000 with `strftime` is not modelled.
- Language-model queries: each request to OpenRouter is a caller-supplied function, None when the request raises. Left out are the API key, HTTP headers, `time.sleep`, and the durations, token counts and costs with their sums in the final log. The levels script's `QUERY_TEMPLATE` formatting is not modelled; its request takes the instructions and the document text.
- PDF text extraction (pdfplumber), reading and writing parquet, CSV and JSON files, logging, argparse and `sys.exit`. Rows are records, and a file that does not exist is None. An early `sys.exit(0)` for "nothing to do" is an empty result. Whether a CSV header is written, and the `or ''` used when writing absent fields, are not modelled.
- `process_parquet_files` in extract_document_info.py and parse_parquet_violations.py is only a loop over files around `parse_document`, and is not modelled.
- pull_agency_info_api.py and website/export_parquet_to_json.py are not part of this model: the first is network clients and file handling, the second repeats the flag rule that `WebsiteData.DocumentOf` models.
- mcyj_download.py prints the filenames and the directory facts; the model returns them instead. The output directory is given by its listing, so creating a missing directory is not modelled (an empty listing fails as in the source). An input file that is not given (then `input_data` is never bound and the loop raises NameError) or does not exist is one failure, `Failure("input file does not exist")`.
- The facility API fetch is a parameter: None stands for a fetch that failed or returned an empty reply, and nothing is written then.
- The column order of missing_files.csv and the text of printed messages are not modelled.
- WebsiteData.SortByNameSorted: states that the records end up in name order, and `WebsiteData.SortByNamePermutes` that no record is lost or added. That Python's `list.sort` is stable, keeping agencies with equal names in dictionary order, is not stated.
- ViolationLevels.NormalizeKeywords: a list of keywords is kept as the `str()` of its items; the types of the items are not tracked.
