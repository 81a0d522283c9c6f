/** Basic facts read from the text of one licensing document: the license
    number, the agency name, a document title, the inspection date and
    whether the document is a Special Investigation Report (SIR). Every
    extractor tries an ordered list of patterns and the first pattern that
    matches anywhere decides the answer. */
module DocumentInfo {
  import opened Strings
  import opened Wrappers
  import opened Regex

  /** Titles and the SIR flag look only at this many leading characters. */
  const HEADER_LENGTH: nat := 3000

  const LICENSE_PATTERNS: seq<string> := [
    "License\\s*#?\\s*:\\s*([A-Z0-9]+)",
    "License\\s*Number\\s*:\\s*([A-Z0-9]+)",
    "Re:\\s*License\\s*#?\\s*:\\s*([A-Z0-9]+)"
  ]

  const AGENCY_PATTERNS: seq<string> := [
    "Agency Name:\\s*([^\\n]+)",
    "Name of Agency:\\s*([^\\n]+)",
    "Licensee Name:\\s*([^\\n]+)",
    "Name of Facility:\\s*([^\\n]+)"
  ]

  const INVESTIGATION_NUMBER_PATTERNS: seq<string> := [
    "Investigation\\s*#\\s*:\\s*([A-Z0-9]+)",
    "SIR\\s*#\\s*:\\s*([A-Z0-9]+)",
    "Report\\s*#\\s*:\\s*([A-Z0-9]+)"
  ]

  /** The sentence of an SIR cover letter; it has no metacharacters, so it is
      searched for as a phrase. */
  const COVER_LETTER_PHRASE := "Attached is the Special Investigation Report"
  const SIR_TITLE := "Special Investigation Report"
  const SIR_HEADING_PATTERN :=
    "(?:BUREAU OF CHILDREN AND ADULT LICENSING\\s+)?SPECIAL INVESTIGATION REPORT"

  /** Heading patterns in priority order; the SIR heading comes first. */
  const TITLE_PATTERNS: seq<string> := [
    SIR_HEADING_PATTERN,
    "(?:BUREAU OF CHILDREN AND ADULT LICENSING\\s+)?LICENSING STUDY",
    "LICENSING STUDY REPORT",
    "(?:BUREAU OF CHILDREN AND ADULT LICENSING\\s+)?RENEWAL INSPECTION REPORT",
    "RENEWAL REPORT",
    "RENEWAL INSPECTION",
    "COMPLAINT INVESTIGATION REPORT",
    "COMPLAINT INVESTIGATION",
    "(?:BUREAU OF CHILDREN AND ADULT LICENSING\\s+)?INSPECTION REPORT",
    "ON-SITE INSPECTION REPORT",
    "INTERIM MONITORING REPORT",
    "MONITORING REPORT",
    "INSPECTION CHECKLIST",
    "CORRECTIVE ACTION PLAN",
    "PROVISIONAL LICENSE REPORT"
  ]

  /** A leading line is taken as a title when it ends with one of these words. */
  const TITLE_LINE_ENDINGS: seq<string> := ["REPORT", "STUDY", "INSPECTION", "INVESTIGATION"]
  const TITLE_LINE_COUNT: nat := 10
  const TITLE_LINE_MAX: nat := 100

  /** The date patterns; the three labelled ones end in a capture of the rest of the line. */
  const CAPTURE_REST_OF_LINE := "\\s*([^\\n]+)"
  const ONSITE_DATES_LABEL := "Date\\(s\\) of On-site Inspection:"
  const ONSITE_DATE_LABEL := "Date of On-site Inspection\\(s\\):"
  const INTAKE_DATE_LABEL := "Special Investigation Intake Date:"
  const MONTH_NAMES :=
    "January|February|March|April|May|June|July|August|September|October|November|December"
  const DATE_PATTERNS: seq<string> := [
    ONSITE_DATES_LABEL + CAPTURE_REST_OF_LINE,
    ONSITE_DATE_LABEL + CAPTURE_REST_OF_LINE,
    INTAKE_DATE_LABEL + CAPTURE_REST_OF_LINE,
    "(?:" + MONTH_NAMES + ")\\s+\\d{1,2},\\s+\\d{4}",
    "\\d{1,2}/\\d{1,2}/\\d{4}"
  ]

  /** text[:3000] */
  function Header(text: string): (h: string)
    ensures |h| == Min(HEADER_LENGTH, |text|) && h == text[..|h|]
  {
    Take(text, HEADER_LENGTH)
  }

  // ---------------------------------------------------------------------------
  // First pattern that matches
  // ---------------------------------------------------------------------------

  /** Pattern k is the first of the list that the search finds in the text. */
  predicate IsFirstHit(search: Searcher, patterns: seq<string>, text: string, k: nat) {
    && k < |patterns|
    && search(patterns[k], text).Some?
    && forall j :: 0 <= j < k ==> search(patterns[j], text).None?
  }

  /** None of the patterns is found in the text. */
  predicate NoHit(search: Searcher, patterns: seq<string>, text: string) {
    forall j :: 0 <= j < |patterns| ==> search(patterns[j], text).None?
  }

  /** The loop `for pattern in patterns: match = re.search(...); if match: ...`:
      the index of the first pattern that matches, with its match. */
  function FirstMatch(search: Searcher, patterns: seq<string>, text: string): (r: Option<(nat, Match)>)
    ensures r.None? <==> NoHit(search, patterns, text)
    ensures r.Some? ==> IsFirstHit(search, patterns, text, r.value.0)
                        && search(patterns[r.value.0], text) == Some(r.value.1)
  {
    FirstMatchFrom(search, patterns, text, 0)
  }

  function FirstMatchFrom(search: Searcher, patterns: seq<string>, text: string, k: nat)
    : (r: Option<(nat, Match)>)
    requires k <= |patterns|
    ensures r.None? <==> forall j :: k <= j < |patterns| ==> search(patterns[j], text).None?
    ensures r.Some? ==> var (i, m) := r.value;
              && k <= i < |patterns|
              && search(patterns[i], text) == Some(m)
              && forall j :: k <= j < i ==> search(patterns[j], text).None?
    decreases |patterns| - k
  {
    if k == |patterns| then None
    else match search(patterns[k], text)
      case Some(m) => Some((k, m))
      case None => FirstMatchFrom(search, patterns, text, k + 1)
  }

  /** strip() followed by re.sub(r'\s+', ' ', ...). */
  function CleanValue(raw: string): (r: string)
    ensures r == NormalizeSpace(raw)
    ensures SpaceNormal(r)
  {
    var s := Strip(raw);
    CollapseStripped(s);
    StripWords(raw);
    NormalizeSpaceIsNormal(raw);
    CollapseSpaces(s)
  }

  // ---------------------------------------------------------------------------
  // License number, agency name, investigation number, date
  // ---------------------------------------------------------------------------

  /** The first capture group of the first license pattern that matches. */
  function LicenseNumber(search: Searcher, text: string): (r: Option<string>)
    ensures r.None? <==> NoHit(search, LICENSE_PATTERNS, text)
    ensures r.Some? ==> exists k: nat :: IsFirstHit(search, LICENSE_PATTERNS, text, k)
                                   && r.value == search(LICENSE_PATTERNS[k], text).value.Group(1)
  {
    match FirstMatch(search, LICENSE_PATTERNS, text)
    case None => None
    case Some((_, m)) => Some(m.Group(1))
  }

  /** The agency name after the first matching label, stripped, with each
      whitespace run made a single space. */
  function AgencyName(search: Searcher, text: string): (r: Option<string>)
    ensures r.None? <==> NoHit(search, AGENCY_PATTERNS, text)
    ensures r.Some? ==> exists k: nat :: IsFirstHit(search, AGENCY_PATTERNS, text, k)
                                   && r.value == NormalizeSpace(search(AGENCY_PATTERNS[k], text).value.Group(1))
    ensures r.Some? ==> SpaceNormal(r.value)
  {
    match FirstMatch(search, AGENCY_PATTERNS, text)
    case None => None
    case Some((_, m)) => Some(CleanValue(m.Group(1)))
  }

  /** The investigation number of an SIR: the capture of the first matching pattern. */
  function InvestigationNumber(search: Searcher, text: string): (r: Option<string>)
    ensures r.None? <==> NoHit(search, INVESTIGATION_NUMBER_PATTERNS, text)
    ensures r.Some? ==> exists k: nat :: IsFirstHit(search, INVESTIGATION_NUMBER_PATTERNS, text, k)
                                   && r.value == search(INVESTIGATION_NUMBER_PATTERNS[k], text).value.Group(1)
  {
    match FirstMatch(search, INVESTIGATION_NUMBER_PATTERNS, text)
    case None => None
    case Some((_, m)) => Some(m.Group(1))
  }

  /** The date text of a match: the first capture group when some group took
      part in the match (match.lastindex >= 1), otherwise the whole match. */
  function DateGroup(m: Match): (g: string)
    ensures m.HasCapture() ==> g == m.groups[1]
    ensures !m.HasCapture() ==> g == m.Group(0)
  {
    if m.HasCapture() then m.Group(1) else m.Group(0)
  }

  /** The inspection date: the cleaned date text of the first date pattern that matches. */
  function InspectionDate(search: Searcher, text: string): (r: Option<string>)
    ensures r.None? <==> NoHit(search, DATE_PATTERNS, text)
    ensures r.Some? ==> exists k: nat :: IsFirstHit(search, DATE_PATTERNS, text, k)
                                   && r.value == NormalizeSpace(DateGroup(search(DATE_PATTERNS[k], text).value))
    ensures r.Some? ==> SpaceNormal(r.value)
  {
    match FirstMatch(search, DATE_PATTERNS, text)
    case None => None
    case Some((_, m)) => Some(CleanValue(DateGroup(m)))
  }

  // ---------------------------------------------------------------------------
  // Title
  // ---------------------------------------------------------------------------

  /** Where a title came from: the cover-letter sentence, the k-th heading
      pattern, or the k-th leading line of the header. */
  datatype TitleSource = CoverLetter | Heading(pattern: nat) | LeadingLine(line: nat)

  /** A title, where it came from, and the investigation number appended to it, if any. */
  datatype Title = Title(text: string, source: TitleSource, number: Option<string>)

  /** Spacing normalised; an all-upper-case title is put in title case. */
  function CleanTitle(raw: string): (t: string)
    ensures SpaceNormal(t)
    ensures LowerStr(t) == LowerStr(NormalizeSpace(raw))
    ensures !IsUpperText(NormalizeSpace(raw)) ==> t == NormalizeSpace(raw)
    ensures IsUpperText(NormalizeSpace(raw)) ==> t == TitleCase(NormalizeSpace(raw))
  {
    var n := NormalizeSpace(raw);
    NormalizeSpaceIsNormal(raw);
    if IsUpperText(n) then
      TitleCaseKeeps(n);
      TitleCase(n)
    else n
  }

  /** The number is appended only when it is a non-empty string (Python truthiness). */
  function Appended(number: Option<string>): (r: Option<string>)
    ensures r.Some? <==> number.Some? && number.value != ""
    ensures r.Some? ==> r == number
  {
    if number.Some? && number.value != "" then number else None
  }

  /** The title, followed by " #" and the number when there is one. */
  function WithNumber(title: string, number: Option<string>): (t: string)
    ensures number.None? ==> t == title
    ensures number.Some? ==> |t| == |title| + 2 + |number.value|
    ensures number.Some? ==> t[..|title|] == title && t[|title|..] == " #" + number.value
  {
    if number.Some? then title + " #" + number.value else title
  }

  /** A stripped line that is a plausible title: non-empty, ending in one of
      the title words (any case), and shorter than 100 characters. */
  predicate TitleLine(line: string) {
    var l := Strip(line);
    && l != []
    && (exists e :: e in TITLE_LINE_ENDINGS && EndsWithCI(l, e))
    && |l| < TITLE_LINE_MAX
  }

  /** The first of the lines, from index k on, that is a plausible title. */
  function FirstTitleLine(lines: seq<string>, k: nat): (r: Option<nat>)
    requires k <= |lines|
    ensures r.None? ==> forall j :: k <= j < |lines| ==> !TitleLine(lines[j])
    ensures r.Some? ==> k <= r.value < |lines| && TitleLine(lines[r.value])
                        && forall j :: k <= j < r.value ==> !TitleLine(lines[j])
    decreases |lines| - k
  {
    if k == |lines| then None
    else if TitleLine(lines[k]) then Some(k)
    else FirstTitleLine(lines, k + 1)
  }

  /** The first ten lines of the header. */
  function LeadingLines(text: string): (ls: seq<string>)
    ensures |ls| <= TITLE_LINE_COUNT
  {
    Take(SplitOn(Header(text), '\n'), TITLE_LINE_COUNT)
  }

  /** The title given by the first heading pattern that matches the header. */
  function HeadingTitle(search: Searcher, header: string, number: Option<string>): (r: Option<Title>)
    ensures r.None? <==> NoHit(search, TITLE_PATTERNS, header)
    ensures r.Some? ==> r.value.source.Heading?
                        && IsFirstHit(search, TITLE_PATTERNS, header, r.value.source.pattern)
    ensures r.Some? && r.value.number.Some? ==> r.value.number == number
    ensures r.Some? ==>
              var title := CleanTitle(Strip(search(TITLE_PATTERNS[r.value.source.pattern], header).value.Group(0)));
              && r.value.text == WithNumber(title, r.value.number)
              && (r.value.number.Some? <==> number.Some? && Contains(UpperStr(title), "SPECIAL INVESTIGATION"))
  {
    match FirstMatch(search, TITLE_PATTERNS, header)
    case Some((k, m)) =>
      var title := CleanTitle(Strip(m.Group(0)));
      var suffix := if Contains(UpperStr(title), "SPECIAL INVESTIGATION") then number else None;
      Some(Title(WithNumber(title, suffix), Heading(k), suffix))
    case None => None
  }

  /** The title given by the first plausible line among the leading lines. */
  function LineTitle(text: string): (r: Option<Title>)
    ensures r.None? ==> forall j :: 0 <= j < |LeadingLines(text)| ==> !TitleLine(LeadingLines(text)[j])
    ensures r.Some? ==> && r.value.source.LeadingLine?
                        && r.value.source.line < |LeadingLines(text)|
                        && TitleLine(LeadingLines(text)[r.value.source.line])
                        && r.value.number.None?
    ensures r.Some? ==> && (forall j :: 0 <= j < r.value.source.line ==> !TitleLine(LeadingLines(text)[j]))
                        && r.value.text == CleanTitle(Strip(LeadingLines(text)[r.value.source.line]))
  {
    var lines := LeadingLines(text);
    match FirstTitleLine(lines, 0)
    case Some(j) => Some(Title(CleanTitle(Strip(lines[j])), LeadingLine(j), None))
    case None => None
  }

  /** The document title, read from the header only: the cover-letter
      sentence wins; then the first heading pattern that matches; then the
      first plausible title among the leading lines. */
  function DocumentTitle(search: Searcher, text: string): (r: Option<Title>)
    ensures r.Some? && r.value.source.CoverLetter? <==> ContainsCI(Header(text), COVER_LETTER_PHRASE)
    ensures r.Some? && r.value.source.Heading? ==>
      && !ContainsCI(Header(text), COVER_LETTER_PHRASE)
      && IsFirstHit(search, TITLE_PATTERNS, Header(text), r.value.source.pattern)
    ensures r.Some? && r.value.source.LeadingLine? ==>
      && !ContainsCI(Header(text), COVER_LETTER_PHRASE)
      && NoHit(search, TITLE_PATTERNS, Header(text))
      && r.value.source.line < |LeadingLines(text)|
      && TitleLine(LeadingLines(text)[r.value.source.line])
    ensures r.None? ==>
      && !ContainsCI(Header(text), COVER_LETTER_PHRASE)
      && NoHit(search, TITLE_PATTERNS, Header(text))
      && forall j :: 0 <= j < |LeadingLines(text)| ==> !TitleLine(LeadingLines(text)[j])
    ensures r.Some? && r.value.number.Some? ==>
      && r.value.number == InvestigationNumber(search, Header(text))
      && r.value.number.value != ""
    ensures r.Some? && r.value.source.CoverLetter? ==>
      && r.value.number == Appended(InvestigationNumber(search, Header(text)))
      && r.value.text == WithNumber(SIR_TITLE, r.value.number)
    ensures r.Some? && r.value.source.Heading? ==>
      r == HeadingTitle(search, Header(text), Appended(InvestigationNumber(search, Header(text))))
    ensures r.Some? && r.value.source.LeadingLine? ==> r == LineTitle(text)
  {
    var header := Header(text);
    var number := Appended(InvestigationNumber(search, header));
    if ContainsCI(header, COVER_LETTER_PHRASE) then
      Some(Title(WithNumber(SIR_TITLE, number), CoverLetter, number))
    else
      var heading := HeadingTitle(search, header, number);
      if heading.Some? then heading else LineTitle(text)
  }

  // ---------------------------------------------------------------------------
  // Special Investigation Report flag and the whole record
  // ---------------------------------------------------------------------------

  /** An SIR is recognised from the header by the cover-letter sentence, the
      SIR heading, or an investigation number (even an empty one). */
  predicate IsSpecialInvestigation(search: Searcher, text: string): (flagged: bool)
    ensures flagged <==>
      || (exists i :: StartsAtCI(Header(text), i, COVER_LETTER_PHRASE))
      || search(SIR_HEADING_PATTERN, Header(text)).Some?
      || InvestigationNumber(search, Header(text)).Some?
  {
    ContainsCIMeans(Header(text), COVER_LETTER_PHRASE);
    var header := Header(text);
    || ContainsCI(header, COVER_LETTER_PHRASE)
    || search(SIR_HEADING_PATTERN, header).Some?
    || InvestigationNumber(search, header).Some?
  }

  datatype DocumentRecord = DocumentRecord(
    agencyId: Option<string>,
    date: Option<string>,
    agencyName: Option<string>,
    title: Option<string>,
    isSpecialInvestigation: bool)

  /** The pages are joined with newlines and each fact is read from the whole text. */
  function ParseDocument(search: Searcher, pages: seq<string>): (d: DocumentRecord)
    ensures d.agencyId == LicenseNumber(search, Join("\n", pages))
    ensures d.date == InspectionDate(search, Join("\n", pages))
    ensures d.agencyName == AgencyName(search, Join("\n", pages))
    ensures d.title.Some? <==> DocumentTitle(search, Join("\n", pages)).Some?
    ensures d.title.Some? ==> d.title.value == DocumentTitle(search, Join("\n", pages)).value.text
    ensures d.isSpecialInvestigation <==> IsSpecialInvestigation(search, Join("\n", pages))
  {
    var text := Join("\n", pages);
    var title := DocumentTitle(search, text);
    DocumentRecord(
      LicenseNumber(search, text),
      InspectionDate(search, text),
      AgencyName(search, text),
      if title.Some? then Some(title.value.text) else None,
      IsSpecialInvestigation(search, text))
  }

  // ---------------------------------------------------------------------------
  // Properties
  // ---------------------------------------------------------------------------

  /** A title taken from the cover letter or from the SIR heading means the
      document is flagged as an SIR. */
  lemma SirTitleIsFlagged(search: Searcher, text: string)
    requires DocumentTitle(search, text).Some?
    requires DocumentTitle(search, text).value.source in {CoverLetter, Heading(0)}
    ensures IsSpecialInvestigation(search, text)
  {
    var t := DocumentTitle(search, text).value;
    if t.source == Heading(0) {
      assert TITLE_PATTERNS[0] == SIR_HEADING_PATTERN;
    }
  }

  /** A title that carries an investigation number belongs to a flagged SIR. */
  lemma NumberedTitleIsFlagged(search: Searcher, text: string)
    requires DocumentTitle(search, text).Some?
    requires DocumentTitle(search, text).value.number.Some?
    ensures IsSpecialInvestigation(search, text)
  {
  }

  /** Only the first 3000 characters decide the title and the SIR flag. */
  lemma HeaderDecides(search: Searcher, text1: string, text2: string)
    requires Header(text1) == Header(text2)
    ensures DocumentTitle(search, text1) == DocumentTitle(search, text2)
    ensures IsSpecialInvestigation(search, text1) == IsSpecialInvestigation(search, text2)
  {
  }
}
