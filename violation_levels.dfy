/** Violation levels: each SIR whose summary found a substantiated violation
    and that has no level yet is sent, with the categorisation instructions,
    to the language model; the reply is parsed as JSON (directly, or by
    scanning for the first balanced brace group that parses), its level is
    normalised to low, moderate or severe, and its keywords cleaned up. */
module ViolationLevels {
  import opened Wrappers
  import opened Strings
  import opened Selection
  import opened AiQueries

  // ---------------------------------------------------------------------------
  // The candidates
  // ---------------------------------------------------------------------------

  /** A row of sir_summaries.csv; violation None is a missing cell. */
  datatype SummaryRow = SummaryRow(sha256: string, violation: Option<string>, cells: InfoCells)

  /** The rows whose violation is 'y', in row order, after the first n rows. */
  function SirsUpTo(rows: seq<SummaryRow>, n: nat): (sirs: seq<Sir>)
    requires n <= |rows|
    ensures |sirs| <= n
  {
    if n == 0 then []
    else
      var sirs := SirsUpTo(rows, n - 1);
      var row := rows[n - 1];
      if row.violation == Some("y") then sirs + [Sir(row.sha256, InfoOf(row.cells))] else sirs
  }

  /** Exactly the rows with violation 'y' are candidates, with their missing
      cells read as empty strings. */
  lemma {:induction false} SirsUpToMembers(rows: seq<SummaryRow>, n: nat)
    requires n <= |rows|
    ensures forall sir :: sir in SirsUpTo(rows, n) <==>
              exists i :: 0 <= i < n && rows[i].violation == Some("y") &&
                          sir == Sir(rows[i].sha256, InfoOf(rows[i].cells))
  {
    if n > 0 {
      SirsUpToMembers(rows, n - 1);
      var row := rows[n - 1];
      forall sir | sir in SirsUpTo(rows, n)
        ensures exists i :: 0 <= i < n && rows[i].violation == Some("y") &&
                            sir == Sir(rows[i].sha256, InfoOf(rows[i].cells))
      {
        if sir in SirsUpTo(rows, n - 1) {
          var i :| 0 <= i < n - 1 && rows[i].violation == Some("y") &&
                   sir == Sir(rows[i].sha256, InfoOf(rows[i].cells));
          assert 0 <= i < n;
        } else {
          assert 0 <= n - 1 < n && rows[n - 1].violation == Some("y");
        }
      }
    }
  }

  /** get_sirs_with_violations; None is a summaries file that does not exist. */
  method GetSirsWithViolations(file: Option<seq<SummaryRow>>) returns (r: Result<seq<Sir>>)
    ensures file.None? ==> r.Failure?
    ensures file.Some? ==> r == Success(SirsUpTo(file.value, |file.value|))
  {
    if file.None? {
      return Failure("Summaries CSV not found");
    }
    var rows := file.value;
    var sirList: seq<Sir> := [];
    for i := 0 to |rows|
      invariant sirList == SirsUpTo(rows, i)
    {
      if rows[i].violation == Some("y") {
        sirList := sirList + [Sir(rows[i].sha256, InfoOf(rows[i].cells))];
      }
    }
    return Success(sirList);
  }

  // ---------------------------------------------------------------------------
  // normalize_violation_level
  // ---------------------------------------------------------------------------

  predicate IsLevel(l: string) {
    l == "low" || l == "moderate" || l == "severe"
  }

  /** The level lowercased when it is exactly one of the three; otherwise
      the first of 'low', 'moderate'/'medium', 'severe'/'high' it mentions;
      otherwise the empty string. */
  function NormalizeViolationLevel(level: string): (r: string)
    ensures r == "" || IsLevel(r)
  {
    var l := LowerStr(level);
    if IsLevel(l) then l
    else if Contains(l, "low") then "low"
    else if Contains(l, "moderate") || Contains(l, "medium") then "moderate"
    else if Contains(l, "severe") || Contains(l, "high") then "severe"
    else ""
  }

  /** A phrase whose first character does not occur in s does not occur in s. */
  lemma NotContainedByFirstChar(s: string, p: string)
    requires |p| > 0 && p[0] !in s
    ensures !Contains(s, p)
  {
    forall i | 0 <= i <= |s| - |p|
      ensures !StartsAt(s, i, p)
    {
      assert s[i..i + |p|][0] == s[i] && s[i] in s;
    }
  }

  /** A string contains itself. */
  lemma ContainsSelf(s: string)
    ensures Contains(s, s)
  {
    assert StartsAt(s, 0, s);
  }

  /** The three exact levels never mention a phrase of an earlier check. */
  lemma ExactLevelsAreExclusive()
    ensures !Contains("moderate", "low") && !Contains("severe", "low")
    ensures !Contains("severe", "moderate") && !Contains("severe", "medium")
  {
    NotContainedByFirstChar("moderate", "low");
    NotContainedByFirstChar("severe", "low");
    NotContainedByFirstChar("severe", "moderate");
    NotContainedByFirstChar("severe", "medium");
  }

  /** The exact match adds nothing to the substring checks: the level is
      'low' iff the lowercased text mentions "low"; 'moderate' iff it does not
      and mentions "moderate" or "medium"; 'severe' iff it mentions none of
      those and mentions "severe" or "high"; empty iff it mentions none of the
      five. */
  lemma NormalizeLevelPrecedence(level: string)
    ensures var l := LowerStr(level);
      && (NormalizeViolationLevel(level) == "low" <==> Contains(l, "low"))
      && (NormalizeViolationLevel(level) == "moderate" <==>
            !Contains(l, "low") && (Contains(l, "moderate") || Contains(l, "medium")))
      && (NormalizeViolationLevel(level) == "severe" <==>
            !Contains(l, "low") && !Contains(l, "moderate") && !Contains(l, "medium") &&
            (Contains(l, "severe") || Contains(l, "high")))
      && (NormalizeViolationLevel(level) == "" <==>
            !Contains(l, "low") && !Contains(l, "moderate") && !Contains(l, "medium") &&
            !Contains(l, "severe") && !Contains(l, "high"))
  {
    var l := LowerStr(level);
    ExactLevelsAreExclusive();
    ContainsSelf(l);
  }

  /** The lowercase of a lowercase level is itself. */
  lemma LowerOfLevel(l: string)
    requires IsLevel(l)
    ensures LowerStr(l) == l
  {
    assert forall i :: 0 <= i < |l| ==> Lower(l[i]) == l[i];
  }

  /** Every possible output normalises to itself. */
  lemma NormalizeViolationLevelIdempotent(level: string)
    ensures NormalizeViolationLevel(NormalizeViolationLevel(level)) == NormalizeViolationLevel(level)
  {
    var r := NormalizeViolationLevel(level);
    if r != "" {
      LowerOfLevel(r);
    } else {
      assert LowerStr(r) == "";
    }
  }

  /** Case does not matter. */
  lemma NormalizeIgnoresCase(level: string)
    ensures NormalizeViolationLevel(LowerStr(level)) == NormalizeViolationLevel(level)
  {
    LowerStrIdempotent(level);
  }

  // ---------------------------------------------------------------------------
  // Recovering a JSON object from the reply
  // ---------------------------------------------------------------------------

  /** The number of '{' minus the number of '}' in s[a..b]. */
  function Depth(s: string, a: nat, b: nat): int
    requires a <= b <= |s|
  {
    if b == a then 0
    else Depth(s, a, b - 1) + (if s[b - 1] == '{' then 1 else if s[b - 1] == '}' then -1 else 0)
  }

  /** s[i] is a '}' that brings the depth counted from start back to 0. */
  predicate ClosesAt(s: string, start: nat, i: nat) {
    start <= i < |s| && s[i] == '}' && Depth(s, start, i + 1) == 0
  }

  /** The outcome of the brace scan: an object found, a candidate that parsed
      to something other than an object (`.get` raises), or the loop ending
      without a break. */
  datatype ScanOutcome = Found(fields: map<string, JsonValue>) | NotAnObject | Exhausted

  /** The scan from position i on: the first closing point whose candidate
      s[start..i+1] is valid JSON decides; invalid candidates are passed over. */
  function ScanFrom(s: string, start: nat, i: nat, parse: JsonParser): ScanOutcome
    requires start <= i <= |s|
    decreases |s| - i
  {
    if i == |s| then Exhausted
    else if ClosesAt(s, start, i) then
      match parse(s[start..i + 1])
      case Object(fields) => Found(fields)
      case NotObject => NotAnObject
      case NotJson => ScanFrom(s, start, i + 1, parse)
    else ScanFrom(s, start, i + 1, parse)
  }

  /** The scan decides at the first closing point at or after i whose candidate
      is valid JSON: every earlier closing candidate fails to parse, the one
      there parses, and the scan ends empty-handed exactly when there is none. */
  lemma {:induction false} ScanFromFirst(s: string, start: nat, i: nat, parse: JsonParser) returns (j: nat)
    requires start <= i <= |s|
    ensures i <= j <= |s|
    ensures forall k :: i <= k < j && ClosesAt(s, start, k) ==> parse(s[start..k + 1]).NotJson?
    ensures j == |s| <==> ScanFrom(s, start, i, parse).Exhausted?
    ensures j < |s| ==> ClosesAt(s, start, j) && !parse(s[start..j + 1]).NotJson?
    ensures j < |s| && parse(s[start..j + 1]).Object? ==>
              ScanFrom(s, start, i, parse) == Found(parse(s[start..j + 1]).fields)
    ensures j < |s| && parse(s[start..j + 1]).NotObject? ==> ScanFrom(s, start, i, parse) == NotAnObject
    decreases |s| - i
  {
    if i == |s| {
      j := i;
    } else if ClosesAt(s, start, i) && !parse(s[start..i + 1]).NotJson? {
      j := i;
    } else {
      j := ScanFromFirst(s, start, i + 1, parse);
    }
  }

  /** The brace-counting loop of query_openrouter, from the first '{'. */
  method BraceScan(reply: string, start: nat, parse: JsonParser) returns (outcome: ScanOutcome)
    requires start <= |reply|
    ensures outcome == ScanFrom(reply, start, start, parse)
  {
    var braceCount := 0;
    for i := start to |reply|
      invariant braceCount == Depth(reply, start, i)
      invariant ScanFrom(reply, start, start, parse) == ScanFrom(reply, start, i, parse)
    {
      if reply[i] == '{' {
        braceCount := braceCount + 1;
      } else if reply[i] == '}' {
        braceCount := braceCount - 1;
        if braceCount == 0 {
          var parsed := parse(reply[start..i + 1]);
          match parsed
          case Object(fields) =>
            return Found(fields);
          case NotObject =>
            return NotAnObject;
          case NotJson =>
        }
      }
    }
    return Exhausted;
  }

  /** The object a reply holds: the whole reply when it parses, else the
      first balanced brace group from the first '{' that parses. */
  function ReplyObject(reply: string, parse: JsonParser): (r: Result<map<string, JsonValue>>)
    ensures parse(reply).Object? ==> r == Success(parse(reply).fields)
    ensures parse(reply).NotObject? ==> r.Failure?
    ensures parse(reply).NotJson? && '{' !in reply ==> r == Failure("No JSON object found in response")
    ensures parse(reply).NotJson? && '{' in reply ==>
              var start := FirstIndex(reply, '{');
              && (r.Success? <==> ScanFrom(reply, start, start, parse).Found?)
              && (r.Success? ==> r.value == ScanFrom(reply, start, start, parse).fields)
              && (ScanFrom(reply, start, start, parse).Exhausted? ==>
                    r == Failure("No valid JSON object found in response"))
  {
    match parse(reply)
    case Object(fields) => Success(fields)
    case NotObject => Failure("Response is not a JSON object")
    case NotJson =>
      if '{' !in reply then Failure("No JSON object found in response")
      else
        match ScanFrom(reply, FirstIndex(reply, '{'), FirstIndex(reply, '{'), parse)
        case Found(fields) => Success(fields)
        case NotAnObject => Failure("Response is not a JSON object")
        case Exhausted => Failure("No valid JSON object found in response")
  }

  // ---------------------------------------------------------------------------
  // Validating the reply
  // ---------------------------------------------------------------------------

  /** The keyword clean-up: null gives no keywords, a list is kept, and any
      other value gives its str() when truthy and nothing otherwise. */
  function NormalizeKeywords(keywords: JsonValue): (r: seq<string>)
    ensures keywords.JNull? ==> r == []
    ensures keywords.JList? ==> r == keywords.items
    ensures !keywords.JNull? && !keywords.JList? && !keywords.Truthy() ==> r == []
    ensures keywords.JString? && keywords.s != "" ==> r == [keywords.s]
    ensures keywords.JOther? && keywords.truthy ==> r == [keywords.text]
    ensures |r| <= 1 || keywords.JList?
  {
    match keywords
    case JNull => []
    case JList(items) => items
    case JString(s) => if s != "" then [s] else []
    case JOther(text, truthy) => if truthy then [text] else []
  }

  /** What a successful query yields. */
  datatype LevelResult = LevelResult(level: string, justification: JsonValue, keywords: seq<string>)

  /** The validation applied to the parsed object: a level that is not a
      string (`.lower()` raises) or that normalises to '' is an error. */
  function ValidateLevel(fields: map<string, JsonValue>): (r: Result<LevelResult>)
    ensures r.Success? ==> IsLevel(r.value.level)
    ensures r.Success? <==> Get(fields, "level", JString("")).JString? &&
                            NormalizeViolationLevel(Get(fields, "level", JString("")).s) != ""
    ensures r.Success? ==> r.value.level == NormalizeViolationLevel(Get(fields, "level", JString("")).s)
    ensures r.Success? ==> r.value.justification == Get(fields, "justification", JString(""))
    ensures r.Success? ==> r.value.keywords == NormalizeKeywords(Get(fields, "keywords", JList([])))
  {
    var keywords := NormalizeKeywords(Get(fields, "keywords", JList([])));
    var justification := Get(fields, "justification", JString(""));
    match Get(fields, "level", JString(""))
    case JString(level) =>
      var normalized := NormalizeViolationLevel(level);
      if normalized == "" then Failure("Could not extract valid level from response")
      else Success(LevelResult(normalized, justification, keywords))
    case _ => Failure("Level is not a string")
  }

  /** The outcome of query_openrouter once the reply has arrived: never a
      result with an empty level; an error for a reply that is not JSON and
      holds no '{', or that is JSON but not an object. */
  function LevelOf(reply: string, parse: JsonParser): (r: Result<LevelResult>)
    ensures r.Success? ==> IsLevel(r.value.level)
    ensures parse(reply).NotJson? && '{' !in reply ==> r.Failure?
    ensures parse(reply).NotObject? ==> r.Failure?
    ensures parse(reply).Object? ==> r == ValidateLevel(parse(reply).fields)
    ensures ReplyObject(reply, parse).Failure? ==> r.Failure?
    ensures ReplyObject(reply, parse).Success? ==> r == ValidateLevel(ReplyObject(reply, parse).value)
  {
    match ReplyObject(reply, parse)
    case Success(fields) => ValidateLevel(fields)
    case Failure(e) => Failure(e)
  }

  /** query_openrouter after the request: parse, scan, validate. */
  method ParseLevelReply(reply: string, parse: JsonParser) returns (r: Result<LevelResult>)
    ensures r == LevelOf(reply, parse)
  {
    var fields: map<string, JsonValue>;
    var parsed := parse(reply);
    match parsed {
      case Object(f) =>
        fields := f;
      case NotObject =>
        return Failure("Response is not a JSON object");
      case NotJson =>
        if '{' !in reply {
          return Failure("No JSON object found in response");
        }
        var start := FirstIndex(reply, '{');
        var outcome := BraceScan(reply, start, parse);
        match outcome {
          case Found(f) =>
            fields := f;
          case NotAnObject =>
            return Failure("Response is not a JSON object");
          case Exhausted =>
            return Failure("No valid JSON object found in response");
        }
    }
    r := ValidateLevel(fields);
  }

  // ---------------------------------------------------------------------------
  // The run
  // ---------------------------------------------------------------------------

  /** One appended row of sir_violation_levels.csv. */
  datatype LevelRecord = LevelRecord(sha256: string, info: SirInfo, level: string,
                                     justification: JsonValue, keywords: seq<string>)

  /** What the run reads besides the two CSV files: the parquet files, the
      literal_eval of a text cell, json.loads, and the request to the model,
      which maps the instructions and the document text to the reply, or to
      None when the request fails. */
  datatype Services = Services(files: seq<seq<ParquetRow>>, eval: LiteralEval, parse: JsonParser,
                               ask: (string, string) -> Option<string>)

  /** The record a selected sha yields, or None when it is skipped: the
      document is missing, the request fails, the reply is rejected, or the
      justification cannot be sliced for the log line (the TypeError is caught
      like a failed request). */
  function RecordFor(sha: string, infoMap: map<string, SirInfo>, theming: string, services: Services): (r: Option<LevelRecord>)
    ensures r.Some? ==> r.value.sha256 == sha && IsLevel(r.value.level) && r.value.info == InfoFor(infoMap, sha)
    ensures r.Some? ==> r.value.justification.Sliceable()
    ensures r.Some? <==>
              var doc := FindDocument(services.files, sha, services.eval, 0);
              && doc.Some?
              && services.ask(theming, doc.value.fullText).Some?
              && LevelOf(services.ask(theming, doc.value.fullText).value, services.parse).Success?
              && LevelOf(services.ask(theming, doc.value.fullText).value, services.parse).value.justification.Sliceable()
    ensures r.Some? ==>
              var reply := services.ask(theming, FindDocument(services.files, sha, services.eval, 0).value.fullText).value;
              LevelOf(reply, services.parse) == Success(LevelResult(r.value.level, r.value.justification, r.value.keywords))
  {
    match FindDocument(services.files, sha, services.eval, 0)
    case None => None
    case Some(doc) =>
      match services.ask(theming, doc.fullText)
      case None => None
      case Some(reply) =>
        match LevelOf(reply, services.parse)
        case Failure(_) => None
        case Success(res) =>
          if !res.justification.Sliceable() then None
          else Some(LevelRecord(sha, InfoFor(infoMap, sha), res.level, res.justification, res.keywords))
  }

  /** The records of the first n selected shas, in order. */
  function RecordsUpTo(shas: seq<string>, n: nat, infoMap: map<string, SirInfo>, theming: string, services: Services): (records: seq<LevelRecord>)
    requires n <= |shas|
    ensures |records| <= n
  {
    if n == 0 then []
    else
      var records := RecordsUpTo(shas, n - 1, infoMap, theming, services);
      match RecordFor(shas[n - 1], infoMap, theming, services)
      case None => records
      case Some(record) => records + [record]
  }

  /** Every record comes from a selected sha, in selection order, has one of
      the three levels and the fields of that sha's last summary row. */
  lemma {:induction false} RecordsUpToSpec(shas: seq<string>, n: nat, infoMap: map<string, SirInfo>, theming: string, services: Services)
    requires n <= |shas|
    ensures forall k :: 0 <= k < |RecordsUpTo(shas, n, infoMap, theming, services)| ==>
              var record := RecordsUpTo(shas, n, infoMap, theming, services)[k];
              record.sha256 in shas[..n] && IsLevel(record.level) && record.info == InfoFor(infoMap, record.sha256)
  {
    if n > 0 {
      RecordsUpToSpec(shas, n - 1, infoMap, theming, services);
      assert shas[..n] == shas[..n - 1] + [shas[n - 1]];
    }
  }

  /** The whole run: None for the instructions or the summaries is a missing
      file, which ends the run with an error before anything is written;
      otherwise the records appended (none when there is nothing to do). */
  function LevelRun(theming: Option<string>, summaries: Option<seq<SummaryRow>>, existing: Option<seq<string>>,
                    maxCount: int, services: Services): Result<seq<LevelRecord>>
  {
    if theming.None? then Failure("Theming instructions file not found")
    else if summaries.None? then Failure("Summaries CSV not found")
    else
      var sirs := SirsUpTo(summaries.value, |summaries.value|);
      var selected := SelectMissing(ShasOf(sirs), ExistingShas(existing), maxCount);
      Success(RecordsUpTo(selected, |selected|, InfoMap(sirs), theming.value, services))
  }

  /** One turn of the loop over the selected shas. */
  method QueryStep(shas: seq<string>, i: nat, infoMap: map<string, SirInfo>, theming: string,
                   services: Services, results: seq<LevelRecord>) returns (next: seq<LevelRecord>)
    requires i < |shas|
    requires results == RecordsUpTo(shas, i, infoMap, theming, services)
    ensures next == RecordsUpTo(shas, i + 1, infoMap, theming, services)
  {
    next := results;
    var sha := shas[i];
    var doc := LoadDocument(services.files, sha, services.eval);
    if doc.None? {
      return;
    }
    var reply := services.ask(theming, doc.value.fullText);
    if reply.None? {
      return;
    }
    var result := ParseLevelReply(reply.value, services.parse);
    if result.Failure? || !result.value.justification.Sliceable() {
      return;
    }
    var info := InfoFor(infoMap, sha);
    next := results + [LevelRecord(sha, info, result.value.level, result.value.justification, result.value.keywords)];
  }

  /** main, up to the rows it appends. */
  method UpdateViolationLevels(theming: Option<string>, summaries: Option<seq<SummaryRow>>,
                               existing: Option<seq<string>>, maxCount: int, services: Services)
    returns (r: Result<seq<LevelRecord>>)
    ensures r == LevelRun(theming, summaries, existing, maxCount, services)
  {
    if theming.None? {
      return Failure("Theming instructions file not found");
    }
    var allSirs := GetSirsWithViolations(summaries);
    if allSirs.Failure? {
      return Failure("Summaries CSV not found");
    }
    var sirs := allSirs.value;
    var infoMap := InfoMap(sirs);
    var existingShas := ExistingShas(existing);
    var shasToQuery := SelectMissing(ShasOf(sirs), existingShas, maxCount);
    var results: seq<LevelRecord> := [];
    for i := 0 to |shasToQuery|
      invariant results == RecordsUpTo(shasToQuery, i, infoMap, theming.value, services)
    {
      results := QueryStep(shasToQuery, i, infoMap, theming.value, services, results);
    }
    return Success(results);
  }

  /** The run appends at most max_count records, each for a candidate sha
      that had no level yet and a summary row with violation 'y', each with
      one of the three levels. */
  lemma LevelRunSpec(theming: Option<string>, summaries: Option<seq<SummaryRow>>, existing: Option<seq<string>>,
                     maxCount: int, services: Services)
    requires theming.Some? && summaries.Some?
    ensures LevelRun(theming, summaries, existing, maxCount, services).Success?
    ensures var records := LevelRun(theming, summaries, existing, maxCount, services).value;
      && (maxCount >= 0 ==> |records| <= maxCount)
      && forall k :: 0 <= k < |records| ==>
           && IsLevel(records[k].level)
           && records[k].sha256 !in ExistingShas(existing)
           && (exists i :: 0 <= i < |summaries.value| && summaries.value[i].violation == Some("y") &&
                           summaries.value[i].sha256 == records[k].sha256)
  {
    var rows := summaries.value;
    var sirs := SirsUpTo(rows, |rows|);
    var shas := ShasOf(sirs);
    var selected := SelectMissing(shas, ExistingShas(existing), maxCount);
    SelectMissingSpec(shas, ExistingShas(existing), maxCount);
    RecordsUpToSpec(selected, |selected|, InfoMap(sirs), theming.value, services);
    SirsUpToMembers(rows, |rows|);
    var records := RecordsUpTo(selected, |selected|, InfoMap(sirs), theming.value, services);
    assert selected[..|selected|] == selected;
    forall k | 0 <= k < |records|
      ensures exists i :: 0 <= i < |rows| && rows[i].violation == Some("y") && rows[i].sha256 == records[k].sha256
    {
      var sha := records[k].sha256;
      assert sha in selected;
      assert sha in shas;
      var m :| 0 <= m < |shas| && shas[m] == sha;
      assert sirs[m] in sirs;
      var i :| 0 <= i < |rows| && rows[i].violation == Some("y") && sirs[m] == Sir(rows[i].sha256, InfoOf(rows[i].cells));
    }
  }

  // ---------------------------------------------------------------------------
  // Level counts
  // ---------------------------------------------------------------------------

  /** The number of records with this level. */
  function Occurrences(records: seq<LevelRecord>, level: string): (c: nat)
    ensures c <= |records|
  {
    if records == [] then 0
    else Occurrences(records[..|records| - 1], level) + (if records[|records| - 1].level == level then 1 else 0)
  }

  /** level_counts after the first n records. */
  function CountsUpTo(records: seq<LevelRecord>, n: nat): map<string, nat>
    requires n <= |records|
  {
    if n == 0 then map[]
    else
      var counts := CountsUpTo(records, n - 1);
      var level := records[n - 1].level;
      counts[level := (if level in counts then counts[level] else 0) + 1]
  }

  /** The summary's level distribution. */
  method LevelCounts(records: seq<LevelRecord>) returns (counts: map<string, nat>)
    ensures counts == CountsUpTo(records, |records|)
  {
    counts := map[];
    for i := 0 to |records|
      invariant counts == CountsUpTo(records, i)
    {
      var level := records[i].level;
      counts := counts[level := (if level in counts then counts[level] else 0) + 1];
    }
  }

  /** Each level is counted once per record carrying it, and only levels
      that occur are keys. */
  lemma {:induction false} CountsUpToOccurrences(records: seq<LevelRecord>, n: nat, level: string)
    requires n <= |records|
    ensures level in CountsUpTo(records, n) <==> Occurrences(records[..n], level) > 0
    ensures level in CountsUpTo(records, n) ==> CountsUpTo(records, n)[level] == Occurrences(records[..n], level)
  {
    if n > 0 {
      CountsUpToOccurrences(records, n - 1, level);
      assert records[..n][..n - 1] == records[..n - 1];
    }
  }

  /** When every record has one of the three levels, the three counts add up
      to the number of records. */
  lemma {:induction false} OccurrencesSum(records: seq<LevelRecord>)
    requires forall k :: 0 <= k < |records| ==> IsLevel(records[k].level)
    ensures Occurrences(records, "low") + Occurrences(records, "moderate") + Occurrences(records, "severe") == |records|
  {
    if records != [] {
      OccurrencesSum(records[..|records| - 1]);
    }
  }
}
