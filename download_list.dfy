/** Reconciling downloads against the list of available documents: both
    sides are reduced to lowercase <agency>_<title> names without the date
    suffix, and the names on one side only are reported as extra (downloaded,
    not listed) or missing (listed, not downloaded). */
module DownloadList {
  import opened Wrappers
  import opened Strings
  import opened Dicts
  import opened Downloads

  // ---------------------------------------------------------------------------
  // The downloaded side
  // ---------------------------------------------------------------------------

  /** get_downloaded_files: the directory entries as a set, lowercased by
      default. */
  function DownloadedFiles(listing: seq<string>, lower: bool): (files: set<string>)
    ensures lower ==> forall f :: f in files ==> LowerStr(f) == f
    ensures lower ==> forall i :: 0 <= i < |listing| ==> LowerStr(listing[i]) in files
    ensures !lower ==> forall i :: 0 <= i < |listing| ==> listing[i] in files
    ensures forall f :: f in files ==> exists i :: 0 <= i < |listing| && f == (if lower then LowerStr(listing[i]) else listing[i])
  {
    if lower then
      var files := set f | f in listing :: LowerStr(f);
      assert forall f :: f in files ==> LowerStr(f) == f by {
        forall f | f in files ensures LowerStr(f) == f {
          var g :| g in listing && f == LowerStr(g);
          LowerStrIdempotent(g);
        }
      }
      files
    else set f | f in listing
  }

  predicate EndsWith(s: string, suffix: string) {
    |suffix| <= |s| && s[|s| - |suffix|..] == suffix
  }

  /** _YYYY-MM-DD.pdf, the suffix a download carries. */
  predicate DateSuffix(s: string) {
    |s| == 15 && s[0] == '_' && DateShaped(s[1..11]) && s[11..] == ".pdf"
  }

  /** re.sub(r'_\d{4}-\d{2}-\d{2}\.pdf$', '', f) on a name ending in ".pdf":
      the suffix can only match at the very end. */
  function StripDate(f: string): (r: string)
    ensures |f| >= 15 && DateSuffix(f[|f| - 15..]) ==> r == f[..|f| - 15]
    ensures !(|f| >= 15 && DateSuffix(f[|f| - 15..])) ==> r == f
  {
    if |f| >= 15 && DateSuffix(f[|f| - 15..]) then f[..|f| - 15] else f
  }

  /** The downloaded names ending in ".pdf", with their date suffix removed. */
  function DownloadedNoDate(files: set<string>): (r: set<string>)
    ensures forall f :: f in files && EndsWith(f, ".pdf") ==> StripDate(f) in r
    ensures forall x :: x in r ==> exists f :: f in files && EndsWith(f, ".pdf") && StripDate(f) == x
  {
    set f | f in files && EndsWith(f, ".pdf") :: StripDate(f)
  }

  /** f is x followed by a date suffix. */
  predicate DatedAs(f: string, x: string) {
    |f| == |x| + 15 && f[..|x|] == x && DateSuffix(f[|x|..])
  }

  /** A name with a date suffix is a pdf name, and the suffix is what StripDate removes. */
  lemma DatedAsStrips(f: string, x: string)
    requires DatedAs(f, x)
    ensures EndsWith(f, ".pdf") && StripDate(f) == x
  {
    assert f[|f| - 15..] == f[|x|..];
    assert f[|f| - 4..] == f[|x|..][11..];
  }

  /** A name is among the undated downloads exactly when it is a download
      with a date suffix removed, or a pdf download without one, kept whole;
      any other download contributes nothing. */
  lemma DownloadedNoDateMembers(files: set<string>, x: string)
    ensures x in DownloadedNoDate(files) <==>
              || (exists f :: f in files && DatedAs(f, x))
              || (x in files && EndsWith(x, ".pdf") && !(|x| >= 15 && DateSuffix(x[|x| - 15..])))
  {
    if x in DownloadedNoDate(files) {
      var f :| f in files && EndsWith(f, ".pdf") && StripDate(f) == x;
      if |f| >= 15 && DateSuffix(f[|f| - 15..]) {
        assert DatedAs(f, x);
      }
    }
    if f :| f in files && DatedAs(f, x) {
      DatedAsStrips(f, x);
    }
  }

  // ---------------------------------------------------------------------------
  // The expected side
  // ---------------------------------------------------------------------------

  /** <agency>_<title> of a listed document, lowercased, from agency_name
      and Title. */
  function NoDateName(row: CsvRow): string {
    LowerStr(SanitizeAgency(Cell(row, "agency_name", "")) + "_" + SanitizeName(Cell(row, "Title", "")))
  }

  /** <agency>_<title>_<date>.<extension>, lowercased; the extension
      defaults to pdf. */
  function DatedName(row: CsvRow, date: string): string {
    LowerStr(SanitizeAgency(Cell(row, "agency_name", "")) + "_" + SanitizeName(Cell(row, "Title", "")) + "_" +
             date + "." + Cell(row, "FileExtension", "pdf"))
  }

  /** Lowercasing works character by character. */
  lemma LowerStrConcat(a: string, b: string)
    ensures LowerStr(a + b) == LowerStr(a) + LowerStr(b)
  {
    assert forall i :: 0 <= i < |a + b| ==> LowerStr(a + b)[i] == (LowerStr(a) + LowerStr(b))[i];
  }

  /** The date and extension part lowercases to itself when the extension
      is pdf in any case. */
  lemma LowerDateTail(date: string, ext: string)
    requires DateShaped(date) && LowerStr(ext) == "pdf"
    ensures LowerStr("_" + date + "." + ext) == "_" + date + ".pdf"
  {
    LowerStrConcat("_" + date + ".", ext);
    var low := LowerStr("_" + date + ".");
    forall i | 0 <= i < |low| ensures low[i] == ("_" + date + ".")[i] {
      if 1 <= i < 11 {
        assert ("_" + date + ".")[i] == date[i - 1];
        assert IsDigit(date[i - 1]) || date[i - 1] == '-';
      }
    }
    assert low == "_" + date + ".";
  }

  /** A date suffix put after a stem is removed again. */
  lemma StripDateSuffix(stem: string, date: string)
    requires DateShaped(date)
    ensures EndsWith(stem + "_" + date + ".pdf", ".pdf")
    ensures StripDate(stem + "_" + date + ".pdf") == stem
  {
    var name := stem + "_" + date + ".pdf";
    assert name[|name| - 15..] == "_" + date + ".pdf";
    assert name[|name| - 15..][1..11] == date;
    assert name[..|name| - 15] == stem;
  }

  /** The dated name extends the undated one: removing the date suffix from
      the expected name of a pdf gives back its undated name, so a download
      saved under the expected name is matched. */
  lemma StripDatedName(row: CsvRow, date: string)
    requires DateShaped(date)
    requires LowerStr(Cell(row, "FileExtension", "pdf")) == "pdf"
    ensures EndsWith(DatedName(row, date), ".pdf")
    ensures StripDate(DatedName(row, date)) == NoDateName(row)
  {
    var stem := SanitizeAgency(Cell(row, "agency_name", "")) + "_" + SanitizeName(Cell(row, "Title", ""));
    var ext := Cell(row, "FileExtension", "pdf");
    var tail := "_" + date + "." + ext;
    assert stem + "_" + date + "." + ext == stem + tail;
    LowerStrConcat(stem, tail);
    LowerDateTail(date, ext);
    assert DatedName(row, date) == NoDateName(row) + "_" + date + ".pdf";
    StripDateSuffix(NoDateName(row), date);
  }

  /** A listed row with its date parsed: the names it contributes. */
  datatype Named = Named(noDate: string, withDate: string, row: CsvRow)

  /** The CreatedDate of a row parses ("%Y-%m-%dT%H:%M:%S.%fZ"). */
  predicate Parses(row: CsvRow, parse: DateParser) {
    parse(Cell(row, "CreatedDate", "")).Some?
  }

  predicate AllParse(rows: seq<CsvRow>, n: nat, parse: DateParser)
    requires n <= |rows|
  {
    forall j :: 0 <= j < n ==> Parses(rows[j], parse)
  }

  /** The first n rows with their names. */
  function NamedUpTo(rows: seq<CsvRow>, n: nat, parse: DateParser): (named: seq<Named>)
    requires n <= |rows| && AllParse(rows, n, parse)
    ensures |named| == n
    ensures forall j :: 0 <= j < n ==>
              named[j] == Named(NoDateName(rows[j]), DatedName(rows[j], parse(Cell(rows[j], "CreatedDate", "")).value), rows[j])
  {
    seq(n, j requires 0 <= j < n => Named(NoDateName(rows[j]), DatedName(rows[j], parse(Cell(rows[j], "CreatedDate", "")).value), rows[j]))
  }

  /** expected_files, expected_files_no_date, expected_files_info and
      filename_to_row. */
  datatype Expected = Expected(withDate: set<string>, noDate: set<string>, info: seq<CsvRow>,
                               toRow: map<string, CsvRow>)

  /** The four collections after the given rows, in order. */
  function Collect(named: seq<Named>): Expected
    decreases |named|
  {
    if named == [] then Expected({}, {}, [], map[])
    else
      var e := Collect(named[..|named| - 1]);
      var x := named[|named| - 1];
      Expected(e.withDate + {x.withDate}, e.noDate + {x.noDate}, e.info + [x.row], e.toRow[x.noDate := x.row])
  }

  /** info keeps every row, in order. */
  lemma {:induction false} CollectInfo(named: seq<Named>)
    ensures |Collect(named).info| == |named|
    ensures forall j :: 0 <= j < |named| ==> Collect(named).info[j] == named[j].row
    decreases |named|
  {
    if named != [] {
      CollectInfo(named[..|named| - 1]);
    }
  }

  /** The undated names are exactly the keys of filename_to_row, each
      mapping to a row with that name. */
  lemma {:induction false} CollectToRow(named: seq<Named>)
    ensures Collect(named).noDate == Collect(named).toRow.Keys
    ensures forall k :: k in Collect(named).toRow ==>
              exists j :: 0 <= j < |named| && named[j].noDate == k && named[j].row == Collect(named).toRow[k]
    decreases |named|
  {
    if named != [] {
      var init := named[..|named| - 1];
      CollectToRow(init);
      var e := Collect(named);
      var x := named[|named| - 1];
      assert e.toRow == Collect(init).toRow[x.noDate := x.row];
      forall k | k in e.toRow
        ensures exists j :: 0 <= j < |named| && named[j].noDate == k && named[j].row == e.toRow[k]
      {
        if k != x.noDate {
          var j :| 0 <= j < |init| && init[j].noDate == k && init[j].row == Collect(init).toRow[k];
          assert named[j] == init[j];
        }
      }
    }
  }

  /** The name sets hold exactly the rows' names. */
  lemma {:induction false} CollectMembers(named: seq<Named>, name: string)
    ensures name in Collect(named).noDate <==> exists j :: 0 <= j < |named| && named[j].noDate == name
    ensures name in Collect(named).withDate <==> exists j :: 0 <= j < |named| && named[j].withDate == name
    decreases |named|
  {
    if named != [] {
      var init := named[..|named| - 1];
      CollectMembers(init, name);
      assert forall j :: 0 <= j < |init| ==> named[j] == init[j];
      if exists j :: 0 <= j < |named| && named[j].noDate == name {
        var j :| 0 <= j < |named| && named[j].noDate == name;
        if j < |init| { assert init[j].noDate == name; }
      }
      if exists j :: 0 <= j < |named| && named[j].withDate == name {
        var j :| 0 <= j < |named| && named[j].withDate == name;
        if j < |init| { assert init[j].withDate == name; }
      }
    }
  }

  /** filename_to_row keeps the last row with a given undated name. */
  lemma {:induction false} CollectLastWins(named: seq<Named>, i: nat)
    requires i < |named|
    requires forall j :: i < j < |named| ==> named[j].noDate != named[i].noDate
    ensures named[i].noDate in Collect(named).toRow
    ensures Collect(named).toRow[named[i].noDate] == named[i].row
    decreases |named|
  {
    if i < |named| - 1 {
      var init := named[..|named| - 1];
      CollectLastWins(init, i);
    }
  }

  /** The rows' collections, or a failure at the first CreatedDate that
      does not parse. */
  function ExpectedOf(rows: seq<CsvRow>, parse: DateParser): Result<Expected> {
    if AllParse(rows, |rows|, parse) then Success(Collect(NamedUpTo(rows, |rows|, parse)))
    else Failure("time data does not match format")
  }

  /** The loop over the rows of the available-files list. */
  method ReadExpected(rows: seq<CsvRow>, parse: DateParser) returns (r: Result<Expected>)
    ensures r == ExpectedOf(rows, parse)
  {
    var expectedFiles: set<string> := {};
    var expectedFilesNoDate: set<string> := {};
    var expectedFilesInfo: seq<CsvRow> := [];
    var filenameToRow: map<string, CsvRow> := map[];
    for i := 0 to |rows|
      invariant AllParse(rows, i, parse)
      invariant Expected(expectedFiles, expectedFilesNoDate, expectedFilesInfo, filenameToRow) ==
                Collect(NamedUpTo(rows, i, parse))
    {
      var row := rows[i];
      var documentAgency := SanitizeAgency(Cell(row, "agency_name", ""));
      var documentName := SanitizeName(Cell(row, "Title", ""));
      var createdDate := Cell(row, "CreatedDate", "");
      var extension := Cell(row, "FileExtension", "pdf");
      var documentDate := parse(createdDate);
      if documentDate.None? {
        return Failure("time data does not match format");
      }
      var filenameWithDate := LowerStr(documentAgency + "_" + documentName + "_" + documentDate.value + "." + extension);
      var filenameNoDate := LowerStr(documentAgency + "_" + documentName);
      expectedFiles := expectedFiles + {filenameWithDate};
      expectedFilesNoDate := expectedFilesNoDate + {filenameNoDate};
      expectedFilesInfo := expectedFilesInfo + [row];
      filenameToRow := filenameToRow[filenameNoDate := row];
      assert NamedUpTo(rows, i + 1, parse)[..i] == NamedUpTo(rows, i, parse);
    }
    return Success(Expected(expectedFiles, expectedFilesNoDate, expectedFilesInfo, filenameToRow));
  }

  /** The rows are read in full exactly when every CreatedDate parses;
      info is then the rows in order. */
  lemma ExpectedInfo(rows: seq<CsvRow>, parse: DateParser)
    ensures ExpectedOf(rows, parse).Success? <==> forall j :: 0 <= j < |rows| ==> Parses(rows[j], parse)
    ensures ExpectedOf(rows, parse).Success? ==> ExpectedOf(rows, parse).value.info == rows
  {
    if AllParse(rows, |rows|, parse) {
      var named := NamedUpTo(rows, |rows|, parse);
      CollectInfo(named);
    }
  }

  /** The undated names are exactly those of the rows. */
  lemma ExpectedNoDate(rows: seq<CsvRow>, parse: DateParser, name: string)
    requires ExpectedOf(rows, parse).Success?
    ensures name in ExpectedOf(rows, parse).value.noDate <==> exists j :: 0 <= j < |rows| && NoDateName(rows[j]) == name
  {
    var named := NamedUpTo(rows, |rows|, parse);
    CollectMembers(named, name);
    if name in Collect(named).noDate {
      var j :| 0 <= j < |named| && named[j].noDate == name;
      assert NoDateName(rows[j]) == name;
    }
  }

  /** The dated names are exactly those of the rows with their parsed
      dates. */
  lemma ExpectedWithDate(rows: seq<CsvRow>, parse: DateParser, name: string)
    requires ExpectedOf(rows, parse).Success?
    ensures name in ExpectedOf(rows, parse).value.withDate <==>
              exists j :: 0 <= j < |rows| && DatedName(rows[j], parse(Cell(rows[j], "CreatedDate", "")).value) == name
  {
    var named := NamedUpTo(rows, |rows|, parse);
    CollectMembers(named, name);
    if name in Collect(named).withDate {
      var j :| 0 <= j < |named| && named[j].withDate == name;
      assert DatedName(rows[j], parse(Cell(rows[j], "CreatedDate", "")).value) == name;
    }
  }

  /** filename_to_row has exactly the undated names as keys, and maps each
      to a listed row carrying that name. */
  lemma ExpectedToRow(rows: seq<CsvRow>, parse: DateParser)
    requires ExpectedOf(rows, parse).Success?
    ensures ExpectedOf(rows, parse).value.noDate == ExpectedOf(rows, parse).value.toRow.Keys
    ensures forall k :: k in ExpectedOf(rows, parse).value.toRow ==>
              var row := ExpectedOf(rows, parse).value.toRow[k];
              row in rows && NoDateName(row) == k
  {
    var named := NamedUpTo(rows, |rows|, parse);
    CollectToRow(named);
    var e := Collect(named);
    forall k | k in e.toRow
      ensures e.toRow[k] in rows && NoDateName(e.toRow[k]) == k
    {
      var j :| 0 <= j < |named| && named[j].noDate == k && named[j].row == e.toRow[k];
      assert named[j] == Named(NoDateName(rows[j]), DatedName(rows[j], parse(Cell(rows[j], "CreatedDate", "")).value), rows[j]);
    }
  }

  /** A later row with the same undated name overwrites an earlier one in
      filename_to_row. */
  lemma ExpectedLastWins(rows: seq<CsvRow>, parse: DateParser, i: nat)
    requires i < |rows| && ExpectedOf(rows, parse).Success?
    requires forall j :: i < j < |rows| ==> NoDateName(rows[j]) != NoDateName(rows[i])
    ensures NoDateName(rows[i]) in ExpectedOf(rows, parse).value.toRow
    ensures ExpectedOf(rows, parse).value.toRow[NoDateName(rows[i])] == rows[i]
  {
    var named := NamedUpTo(rows, |rows|, parse);
    assert forall j :: i < j < |named| ==> named[j].noDate != named[i].noDate;
    CollectLastWins(named, i);
  }

  // ---------------------------------------------------------------------------
  // The comparison and the reports
  // ---------------------------------------------------------------------------

  /** extra_files and missing_files: the undated names on one side only. */
  function Reconcile(downloadedNoDate: set<string>, expectedNoDate: set<string>): (r: (set<string>, set<string>))
    ensures r.0 !! r.1
    ensures r.0 !! expectedNoDate && r.1 !! downloadedNoDate
    ensures r.0 + r.1 + (downloadedNoDate * expectedNoDate) == downloadedNoDate + expectedNoDate
  {
    (downloadedNoDate - expectedNoDate, expectedNoDate - downloadedNoDate)
  }

  /** sorted() of a set of names. */
  method SortedList(s: set<string>) returns (r: seq<string>)
    ensures StrictlySorted(r)
    ensures forall y :: y in r <==> y in s
  {
    r := [];
    var rest := s;
    while rest != {}
      invariant rest <= s
      invariant StrictlySorted(r)
      invariant forall y :: y in r <==> y in s && y !in rest
      decreases |rest|
    {
      var x :| x in rest;
      r := InsertSorted(x, r);
      rest := rest - {x};
    }
  }

  /** One data row of missing_files.csv: the generated filename and the
      listed row, or the bare name with blank cells when no row is known. */
  datatype MissingLine = MissingLine(generated: string, row: Option<CsvRow>)

  /** missing_files.csv: rows with the listed columns when something is
      missing and rows were listed, otherwise only the names. */
  datatype MissingFile = WithRows(lines: seq<MissingLine>) | NamesOnly(names: seq<string>)

  function MissingLineOf(file: string, toRow: map<string, CsvRow>): MissingLine {
    if file in toRow then MissingLine(file + "." + Cell(toRow[file], "FileExtension", "pdf"), Some(toRow[file]))
    else MissingLine(file, None)
  }

  function MissingFileOf(sortedMissing: seq<string>, toRow: map<string, CsvRow>, info: seq<CsvRow>): MissingFile {
    if sortedMissing != [] && info != [] then
      WithRows(seq(|sortedMissing|, i requires 0 <= i < |sortedMissing| => MissingLineOf(sortedMissing[i], toRow)))
    else NamesOnly(sortedMissing)
  }

  method WriteMissing(sortedMissing: seq<string>, toRow: map<string, CsvRow>, info: seq<CsvRow>)
    returns (out: MissingFile)
    ensures out == MissingFileOf(sortedMissing, toRow, info)
  {
    if sortedMissing == [] || info == [] {
      return NamesOnly(sortedMissing);
    }
    var lines: seq<MissingLine> := [];
    for i := 0 to |sortedMissing|
      invariant |lines| == i
      invariant forall j :: 0 <= j < i ==> lines[j] == MissingLineOf(sortedMissing[j], toRow)
    {
      var file := sortedMissing[i];
      if file in toRow {
        var row := toRow[file];
        lines := lines + [MissingLine(file + "." + Cell(row, "FileExtension", "pdf"), Some(row))];
      } else {
        lines := lines + [MissingLine(file, None)];
      }
    }
    return WithRows(lines);
  }

  /** What a run reports: the dated names on both sides, the extra names
      and the missing names (each sorted), and missing_files.csv. */
  datatype Report = Report(both: seq<string>, extra: seq<string>, missing: seq<string>, missingFile: MissingFile)

  /** __main__: None for the available-files list is a file that cannot be
      opened, which raises. */
  method DownloadReport(listing: seq<string>, available: Option<seq<CsvRow>>, parse: DateParser)
    returns (r: Result<Report>)
    ensures r.Success? <==> available.Some? && ExpectedOf(available.value, parse).Success?
    ensures r.Success? ==>
      var e := ExpectedOf(available.value, parse).value;
      var downloaded := DownloadedFiles(listing, true);
      var (extra, missing) := Reconcile(DownloadedNoDate(downloaded), e.noDate);
      && StrictlySorted(r.value.both) && (forall y :: y in r.value.both <==> y in downloaded * e.withDate)
      && StrictlySorted(r.value.extra) && (forall y :: y in r.value.extra <==> y in extra)
      && StrictlySorted(r.value.missing) && (forall y :: y in r.value.missing <==> y in missing)
      && r.value.missingFile == MissingFileOf(r.value.missing, e.toRow, e.info)
  {
    var downloadedFiles := DownloadedFiles(listing, true);
    var downloadedFilesNoDate := DownloadedNoDate(downloadedFiles);
    if available.None? {
      return Failure("available files list not found");
    }
    var expected := ReadExpected(available.value, parse);
    if expected.Failure? {
      return Failure(expected.error);
    }
    var e := expected.value;
    var (extraFiles, missingFiles) := Reconcile(downloadedFilesNoDate, e.noDate);
    var both := SortedList(downloadedFiles * e.withDate);
    var extra := SortedList(extraFiles);
    var missing := SortedList(missingFiles);
    var missingFile := WriteMissing(missing, e.toRow, e.info);
    return Success(Report(both, extra, missing, missingFile));
  }

  /** When every missing name is a key of filename_to_row, each line
      carries its row and the name with that row's extension. */
  lemma MissingLinesSpec(sortedMissing: seq<string>, toRow: map<string, CsvRow>, info: seq<CsvRow>)
    requires forall i :: 0 <= i < |sortedMissing| ==> sortedMissing[i] in toRow
    ensures MissingFileOf(sortedMissing, toRow, info).WithRows? ==>
      var lines := MissingFileOf(sortedMissing, toRow, info).lines;
      && |lines| == |sortedMissing|
      && forall i :: 0 <= i < |lines| ==>
           && lines[i].row == Some(toRow[sortedMissing[i]])
           && lines[i].generated == sortedMissing[i] + "." + Cell(toRow[sortedMissing[i]], "FileExtension", "pdf")
    ensures MissingFileOf(sortedMissing, toRow, info).NamesOnly? ==> sortedMissing == [] || info == []
  {
  }

  /** The missing-file facts for any collections shaped like the ones the
      row loop builds. */
  lemma MissingFromExpected(e: Expected, rows: seq<CsvRow>, missing: set<string>, sortedMissing: seq<string>)
    requires e.info == rows && missing <= e.noDate && e.noDate == e.toRow.Keys
    requires forall k :: k in e.toRow ==> e.toRow[k] in rows && NoDateName(e.toRow[k]) == k
    requires forall y :: y in sortedMissing <==> y in missing
    ensures MissingFileOf(sortedMissing, e.toRow, e.info).NamesOnly? ==> sortedMissing == []
    ensures MissingFileOf(sortedMissing, e.toRow, e.info).WithRows? ==>
        var lines := MissingFileOf(sortedMissing, e.toRow, e.info).lines;
        && |lines| == |sortedMissing|
        && forall i :: 0 <= i < |lines| ==>
             && lines[i].row.Some?
             && lines[i].row.value in rows
             && NoDateName(lines[i].row.value) == sortedMissing[i]
             && lines[i].generated == sortedMissing[i] + "." + Cell(lines[i].row.value, "FileExtension", "pdf")
  {
    assert forall i :: 0 <= i < |sortedMissing| ==> sortedMissing[i] in e.toRow;
    MissingLinesSpec(sortedMissing, e.toRow, e.info);
    if sortedMissing != [] {
      assert e.toRow[sortedMissing[0]] in rows;
    }
  }

  /** Every missing name has a listed row, so missing_files.csv is either
      empty of data or has, for each missing name in order, the name with
      the row's extension and the last row listed under that name; the
      blank-cell line is never written. */
  lemma MissingFileSpec(rows: seq<CsvRow>, parse: DateParser, downloadedNoDate: set<string>, sortedMissing: seq<string>)
    requires ExpectedOf(rows, parse).Success?
    requires forall y :: y in sortedMissing <==> y in Reconcile(downloadedNoDate, ExpectedOf(rows, parse).value.noDate).1
    ensures var e := ExpectedOf(rows, parse).value;
      MissingFileOf(sortedMissing, e.toRow, e.info).NamesOnly? ==> sortedMissing == []
    ensures var e := ExpectedOf(rows, parse).value;
      MissingFileOf(sortedMissing, e.toRow, e.info).WithRows? ==>
        var lines := MissingFileOf(sortedMissing, e.toRow, e.info).lines;
        && |lines| == |sortedMissing|
        && forall i :: 0 <= i < |lines| ==>
             && lines[i].row.Some?
             && lines[i].row.value in rows
             && NoDateName(lines[i].row.value) == sortedMissing[i]
             && lines[i].generated == sortedMissing[i] + "." + Cell(lines[i].row.value, "FileExtension", "pdf")
  {
    var e := ExpectedOf(rows, parse).value;
    ExpectedToRow(rows, parse);
    ExpectedInfo(rows, parse);
    MissingFromExpected(e, rows, Reconcile(downloadedNoDate, e.noDate).1, sortedMissing);
  }
}
