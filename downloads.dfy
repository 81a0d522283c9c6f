/** The download filename scheme: a document is saved as
    <agency>_<title>_<date>.pdf with the agency and title cleaned of spaces
    and slashes; the newest YYYY-MM-DD date among the files already saved
    tells where the previous run stopped. */
module Downloads {
  import opened Wrappers
  import opened Strings
  import opened Dicts

  // ---------------------------------------------------------------------------
  // file_info_to_filename
  // ---------------------------------------------------------------------------

  /** The agency part of a filename: stripped, spaces and slashes made '_'. */
  function SanitizeAgency(agency: string): (r: string)
    ensures |r| == |Strip(agency)|
    ensures ' ' !in r && '/' !in r
    ensures forall i :: 0 <= i < |r| ==>
              r[i] == (if Strip(agency)[i] == ' ' || Strip(agency)[i] == '/' then '_' else Strip(agency)[i])
  {
    ReplaceChar(ReplaceChar(Strip(agency), ' ', '_'), '/', '_')
  }

  /** The title part of a filename: stripped, spaces made '_' and slashes '-'. */
  function SanitizeName(name: string): (r: string)
    ensures |r| == |Strip(name)|
    ensures ' ' !in r && '/' !in r
    ensures forall i :: 0 <= i < |r| ==>
              r[i] == (if Strip(name)[i] == ' ' then '_' else if Strip(name)[i] == '/' then '-' else Strip(name)[i])
  {
    ReplaceChar(ReplaceChar(Strip(name), ' ', '_'), '/', '-')
  }

  /** The filename: the cleaned agency, '_', the cleaned title, '_', the
      date, ".pdf". */
  function FileInfoToFilename(agency: string, name: string, date: string): (f: string)
    ensures |f| == |SanitizeAgency(agency)| + |SanitizeName(name)| + |date| + 6
    ensures f[..|SanitizeAgency(agency)|] == SanitizeAgency(agency)
    ensures f[|SanitizeAgency(agency)|] == '_'
    ensures f[|SanitizeAgency(agency)| + 1..|SanitizeAgency(agency)| + 1 + |SanitizeName(name)|] == SanitizeName(name)
    ensures f[|SanitizeAgency(agency)| + 1 + |SanitizeName(name)|] == '_'
    ensures f[|f| - 4 - |date|..|f| - 4] == date
    ensures f[|f| - 4..] == ".pdf"
  {
    SanitizeAgency(agency) + "_" + SanitizeName(name) + "_" + date + ".pdf"
  }

  // ---------------------------------------------------------------------------
  // get_output_dir_info
  // ---------------------------------------------------------------------------

  predicate DigitsAt(s: string, i: nat, n: nat) {
    i + n <= |s| && forall k :: i <= k < i + n ==> IsDigit(s[k])
  }

  /** YYYY-MM-DD in ASCII digits. */
  predicate DateShaped(d: string) {
    |d| == 10 && DigitsAt(d, 0, 4) && d[4] == '-' && DigitsAt(d, 5, 2) && d[7] == '-' && DigitsAt(d, 8, 2)
  }

  /** A name without a final newline ('$' also matches just before one). */
  function Core(f: string): string {
    if |f| > 0 && f[|f| - 1] == '\n' then f[..|f| - 1] else f
  }

  /** The name matches .*\d{4}-\d{2}-\d{2}\.pdf$ from its start: a date and
      ".pdf" at its end, and no newline before them for '.*' to stop at. */
  predicate DatedFile(f: string) {
    var c := Core(f);
    |c| >= 14 && '\n' !in c[..|c| - 14] && DateShaped(c[|c| - 14..|c| - 4]) && c[|c| - 4..] == ".pdf"
  }

  /** The date group of a dated file name. */
  function FileDate(f: string): (d: string)
    requires DatedFile(f)
    ensures DateShaped(d)
  {
    var c := Core(f);
    c[|c| - 14..|c| - 4]
  }

  /** The value of a run of ASCII digits. */
  function DigitsValue(s: string): nat {
    if s == [] then 0 else DigitsValue(s[..|s| - 1]) * 10 + (s[|s| - 1] as int - '0' as int) % 10
  }

  function Year(d: string): nat requires DateShaped(d) { DigitsValue(d[..4]) }
  function Month(d: string): nat requires DateShaped(d) { DigitsValue(d[5..7]) }
  function Day(d: string): nat requires DateShaped(d) { DigitsValue(d[8..]) }

  predicate IsLeapYear(y: int) {
    y % 4 == 0 && (y % 100 != 0 || y % 400 == 0)
  }

  function DaysInMonth(y: int, m: int): int {
    if m == 2 then (if IsLeapYear(y) then 29 else 28)
    else if m == 4 || m == 6 || m == 9 || m == 11 then 30
    else 31
  }

  /** strptime(d, '%Y-%m-%d') accepts the date: a year from 1, a month 01
      to 12 and a day that exists in that month. */
  predicate CalendarDate(d: string)
    requires DateShaped(d)
  {
    1 <= Year(d) && 1 <= Month(d) <= 12 && 1 <= Day(d) <= DaysInMonth(Year(d), Month(d))
  }

  /** The order of the parsed datetimes. */
  function DateKey(d: string): nat
    requires DateShaped(d)
  {
    Year(d) * 10000 + Month(d) * 100 + Day(d)
  }

  /** The date a name carries, when it matches the pattern. */
  function DateOf(f: string): (d: Option<string>)
    ensures d.Some? <==> DatedFile(f)
    ensures d.Some? ==> DateShaped(d.value) && d.value == FileDate(f)
  {
    if DatedFile(f) then Some(FileDate(f)) else None
  }

  /** The values present among the first n options, in order. */
  function Somes<T>(opts: seq<Option<T>>, n: nat): (values: seq<T>)
    requires n <= |opts|
    ensures forall k :: 0 <= k < |values| ==> Some(values[k]) in opts[..n]
  {
    if n == 0 then []
    else
      var values := Somes(opts, n - 1);
      assert opts[..n] == opts[..n - 1] + [opts[n - 1]];
      match opts[n - 1]
      case Some(v) => values + [v]
      case None => values
  }

  /** A value is kept exactly when one of the first n options holds it. */
  lemma {:induction false} SomesMembers<T>(opts: seq<Option<T>>, n: nat, v: T)
    requires n <= |opts|
    ensures v in Somes(opts, n) <==> exists i :: 0 <= i < n && opts[i] == Some(v)
  {
    if n > 0 {
      SomesMembers(opts, n - 1, v);
      if opts[n - 1] == Some(v) {
        assert 0 <= n - 1 < n;
      } else if exists i :: 0 <= i < n && opts[i] == Some(v) {
        var i :| 0 <= i < n && opts[i] == Some(v);
        assert i < n - 1;
      }
    }
  }

  /** The date each name carries, name by name. */
  function NameDates(listing: seq<string>): (dates: seq<Option<string>>)
    ensures |dates| == |listing|
    ensures forall i :: 0 <= i < |listing| ==> dates[i] == DateOf(listing[i])
  {
    seq(|listing|, i requires 0 <= i < |listing| => DateOf(listing[i]))
  }

  /** all_dates after the first n names: the dates of the dated ones, in order. */
  function DatesUpTo(listing: seq<string>, n: nat): seq<string>
    requires n <= |listing|
  {
    Somes(NameDates(listing), n)
  }

  /** A date is collected exactly when it is the date of one of the names. */
  lemma DatesUpToMembers(listing: seq<string>, n: nat, d: string)
    requires n <= |listing|
    ensures d in DatesUpTo(listing, n) <==> exists i :: 0 <= i < n && DateOf(listing[i]) == Some(d)
  {
    SomesMembers(NameDates(listing), n, d);
  }

  /** max(all_dates): the first of the latest dates. */
  function Latest(dates: seq<string>): (latest: string)
    requires dates != [] && forall i :: 0 <= i < |dates| ==> DateShaped(dates[i])
    ensures latest in dates && DateShaped(latest)
    ensures forall i :: 0 <= i < |dates| ==> DateKey(dates[i]) <= DateKey(latest)
  {
    if |dates| == 1 then dates[0]
    else
      var init := dates[..|dates| - 1];
      var latest := Latest(init);
      assert forall i :: 0 <= i < |dates| - 1 ==> dates[i] == init[i];
      if DateKey(dates[|dates| - 1]) > DateKey(latest) then dates[|dates| - 1] else latest
  }

  /** The directory listing and the latest date in it, when a file has one. */
  datatype DirInfo = DirInfo(existingFiles: seq<string>, latestDate: Option<string>)

  /** strptime(d, '%Y-%m-%d') succeeds on every collected date. */
  predicate AllCalendarDates(dates: seq<string>) {
    forall i :: 0 <= i < |dates| ==> DateShaped(dates[i]) && CalendarDate(dates[i])
  }

  /** get_output_dir_info: an empty directory leaves latest_date unassigned,
      so the return raises; a dated name that is no calendar date makes
      strptime raise. */
  function OutputDirInfo(listing: seq<string>): Result<DirInfo> {
    if listing == [] then Failure("latest_date referenced before assignment")
    else
      var dates := DatesUpTo(listing, |listing|);
      if !AllCalendarDates(dates) then Failure("date does not exist")
      else if dates == [] then Success(DirInfo(listing, None))
      else Success(DirInfo(listing, Some(Latest(dates))))
  }

  /** The loop over the names that keeps the date of each dated one. */
  method CollectDates(listing: seq<string>) returns (allDates: seq<string>)
    ensures allDates == DatesUpTo(listing, |listing|)
  {
    ghost var opts := NameDates(listing);
    allDates := [];
    assert allDates == Somes(opts, 0);
    for i := 0 to |listing|
      invariant allDates == Somes(opts, i)
    {
      var date := DateOf(listing[i]);
      assert opts[i] == date;
      if date.Some? {
        allDates := allDates + [date.value];
      }
    }
  }

  /** The strptime pass over the collected dates: false at the first one
      that does not parse. */
  method CheckDates(allDates: seq<string>) returns (valid: bool)
    ensures valid == AllCalendarDates(allDates)
  {
    for i := 0 to |allDates|
      invariant forall j :: 0 <= j < i ==> DateShaped(allDates[j]) && CalendarDate(allDates[j])
    {
      if !DateShaped(allDates[i]) || !CalendarDate(allDates[i]) {
        return false;
      }
    }
    return true;
  }

  method GetOutputDirInfo(listing: seq<string>) returns (r: Result<DirInfo>)
    ensures r == OutputDirInfo(listing)
  {
    if |listing| == 0 {
      return Failure("latest_date referenced before assignment");
    }
    var allDates := CollectDates(listing);
    var valid := CheckDates(allDates);
    if !valid {
      return Failure("date does not exist");
    }
    if allDates == [] {
      return Success(DirInfo(listing, None));
    }
    return Success(DirInfo(listing, Some(Latest(allDates))));
  }

  /** strptime accepts every collected date exactly when it accepts the date
      of every dated name. */
  lemma CalendarDatesOfNames(listing: seq<string>)
    ensures AllCalendarDates(DatesUpTo(listing, |listing|)) <==>
              forall i :: 0 <= i < |listing| && DateOf(listing[i]).Some? ==>
                DateShaped(DateOf(listing[i]).value) && CalendarDate(DateOf(listing[i]).value)
  {
    var dates := DatesUpTo(listing, |listing|);
    forall i | 0 <= i < |listing| && DateOf(listing[i]).Some?
      ensures DateOf(listing[i]).value in dates
    {
      DatesUpToMembers(listing, |listing|, DateOf(listing[i]).value);
    }
    forall k | 0 <= k < |dates|
      ensures exists i :: 0 <= i < |listing| && DateOf(listing[i]) == Some(dates[k])
    {
      DatesUpToMembers(listing, |listing|, dates[k]);
    }
  }

  /** An empty directory fails; otherwise, when every dated name is a
      calendar date, the latest date is absent exactly when no name is
      dated, and is the date of a dated name that no other dated name
      passes. */
  lemma OutputDirInfoSpec(listing: seq<string>)
    ensures listing == [] ==> OutputDirInfo(listing).Failure?
    ensures OutputDirInfo(listing).Success? <==>
              listing != [] && forall i :: 0 <= i < |listing| && DateOf(listing[i]).Some? ==>
                DateShaped(DateOf(listing[i]).value) && CalendarDate(DateOf(listing[i]).value)
    ensures OutputDirInfo(listing).Success? ==> OutputDirInfo(listing).value.existingFiles == listing
    ensures OutputDirInfo(listing).Success? && OutputDirInfo(listing).value.latestDate.None? <==>
              listing != [] && forall i :: 0 <= i < |listing| ==> DateOf(listing[i]).None?
    ensures OutputDirInfo(listing).Success? && OutputDirInfo(listing).value.latestDate.Some? ==>
              var latest := OutputDirInfo(listing).value.latestDate.value;
              && (exists i :: 0 <= i < |listing| && DateOf(listing[i]) == Some(latest))
              && forall i :: 0 <= i < |listing| && DateOf(listing[i]).Some? ==>
                   DateKey(DateOf(listing[i]).value) <= DateKey(latest)
  {
    if listing != [] {
      var dates := DatesUpTo(listing, |listing|);
      forall i | 0 <= i < |listing| && DateOf(listing[i]).Some?
        ensures DateOf(listing[i]).value in dates
      {
        DatesUpToMembers(listing, |listing|, DateOf(listing[i]).value);
      }
      CalendarDatesOfNames(listing);
      if dates != [] {
        DatesUpToMembers(listing, |listing|, dates[0]);
        if AllCalendarDates(dates) {
          var latest := Latest(dates);
          DatesUpToMembers(listing, |listing|, latest);
          forall i | 0 <= i < |listing| && DateOf(listing[i]).Some?
            ensures DateKey(DateOf(listing[i]).value) <= DateKey(latest)
          {
            var k :| 0 <= k < |dates| && dates[k] == DateOf(listing[i]).value;
          }
        }
      }
    }
  }

  /** A name whose month is 13 passes the pattern ... */
  lemma MonthThirteenDated()
    ensures DateOf("report_2023-13-01.pdf") == Some("2023-13-01")
  {
    var d := "2023-13-01";
    var f := "report_2023-13-01.pdf";
    assert |f| == 21 && f[20] == 'f';
    assert Core(f) == f;
    assert DateShaped(d) by {
      assert DigitsAt(d, 0, 4) && DigitsAt(d, 5, 2) && DigitsAt(d, 8, 2);
    }
    assert f[7..17] == d && f[17..] == ".pdf";
    assert '\n' !in f[..7] by {
      assert f[..7] == "report_";
    }
    assert DatedFile(f);
  }

  /** ... but not strptime, so the whole directory read fails. */
  lemma MonthThirteenRaises()
    ensures OutputDirInfo(["report_2023-13-01.pdf"]).Failure?
  {
    var d := "2023-13-01";
    var f := "report_2023-13-01.pdf";
    MonthThirteenDated();
    assert d[5] == '1' && d[6] == '3';
    assert d[5..7] == "13";
    assert "13"[..1] == "1" && "1"[..0] == "";
    assert DigitsValue("1") == 1;
    assert Month(d) == 13;
    OutputDirInfoSpec([f]);
    assert [f][0] == f;
  }

  // ---------------------------------------------------------------------------
  // The filename listing in __main__
  // ---------------------------------------------------------------------------

  /** datetime.strptime(raw, "%Y-%m-%dT%H:%M:%S.%fZ") rendered as
      YYYY-MM-DD, or None when it raises. */
  type DateParser = string -> Option<string>

  /** The date written into a filename: the parsed date, or the raw text
      when it does not parse. */
  function DocumentDate(raw: string, parse: DateParser): (date: string)
    ensures parse(raw).Some? ==> date == parse(raw).value
    ensures parse(raw).None? ==> date == raw
  {
    match parse(raw)
    case Some(d) => d
    case None => raw
  }

  /** The filename of one input row. */
  function RowFilename(row: CsvRow, parse: DateParser): string {
    FileInfoToFilename(Cell(row, "agency_id", ""), Cell(row, "Title", ""),
                       DocumentDate(Cell(row, "CreatedDate", ""), parse))
  }

  /** The filenames of the input rows, row by row. */
  function Filenames(rows: seq<CsvRow>, parse: DateParser): (names: seq<string>)
    ensures |names| == |rows|
  {
    seq(|rows|, i requires 0 <= i < |rows| => RowFilename(rows[i], parse))
  }

  /** Each row's filename ends in ".pdf" after the row's date: the parsed
      CreatedDate, or its raw text when that does not parse. */
  lemma FilenamesSpec(rows: seq<CsvRow>, parse: DateParser)
    ensures forall i :: 0 <= i < |rows| ==>
              var name := Filenames(rows, parse)[i];
              var raw := Cell(rows[i], "CreatedDate", "");
              var date := if parse(raw).Some? then parse(raw).value else raw;
              && name[|name| - 4..] == ".pdf"
              && name[|name| - 4 - |date|..|name| - 4] == date
              && name[..|SanitizeAgency(Cell(rows[i], "agency_id", ""))|] == SanitizeAgency(Cell(rows[i], "agency_id", ""))
  {
  }

  /** What a run produces: the directory information and one filename per
      input row. */
  datatype Plan = Plan(dir: DirInfo, filenames: seq<string>)

  /** The script once the directory is read: None for the input file is one
      not given or not existing, which raises. */
  function PlanFrom(dir: Result<DirInfo>, input: Option<seq<CsvRow>>, parse: DateParser): (r: Result<Plan>)
    ensures r.Success? <==> dir.Success? && input.Some?
    ensures r.Success? ==> r.value.dir == dir.value && r.value.filenames == Filenames(input.value, parse)
  {
    match dir
    case Failure(e) => Failure(e)
    case Success(info) =>
      if input.None? then Failure("input file does not exist")
      else Success(Plan(info, Filenames(input.value, parse)))
  }

  /** The script: the directory information first, then the input rows. */
  function DownloadPlan(listing: seq<string>, input: Option<seq<CsvRow>>, parse: DateParser): Result<Plan> {
    PlanFrom(OutputDirInfo(listing), input, parse)
  }

  method PlanDownloads(listing: seq<string>, input: Option<seq<CsvRow>>, parse: DateParser) returns (r: Result<Plan>)
    ensures r == DownloadPlan(listing, input, parse)
  {
    var dir := GetOutputDirInfo(listing);
    if dir.Failure? {
      return Failure(dir.error);
    }
    if input.None? {
      return Failure("input file does not exist");
    }
    var inputData := input.value;
    var filenames: seq<string> := [];
    for i := 0 to |inputData|
      invariant |filenames| == i
      invariant forall j :: 0 <= j < i ==> filenames[j] == RowFilename(inputData[j], parse)
    {
      var rawDate := Cell(inputData[i], "CreatedDate", "");
      var parsedDate := DocumentDate(rawDate, parse);
      filenames := filenames + [FileInfoToFilename(Cell(inputData[i], "agency_id", ""), Cell(inputData[i], "Title", ""), parsedDate)];
    }
    assert filenames == Filenames(inputData, parse);
    return Success(Plan(dir.value, filenames));
  }
}
