/** Facility information: the agency records fetched from the licensing API
    are merged into the rows of facility_information.csv, keyed by licence
    number, and the merged rows are written back in licence-number order. */
module FacilityInfo {
  import opened Wrappers
  import opened Strings
  import opened Dicts

  /** The columns written, in order. */
  const KeepColumns: seq<string> :=
    ["LicenseNumber", "Address", "agencyId", "AgencyName", "AgencyType", "City", "County",
     "LicenseEffectiveDate", "LicenseeGroupOrganizationName", "LicenseExpirationDate",
     "LicenseStatus", "Phone", "ZipCode"]

  /** The LicenseNumber field, an absent one read as "" (both are falsy). */
  function LicenseOf(r: CsvRow): string {
    Cell(r, "LicenseNumber", "")
  }

  /** A row under the licence number it is filed by. */
  datatype Keyed<R> = Keyed(license: string, row: R)

  /** The rows filed after the first n keyed rows: a row with an empty
      licence number is skipped, a row replaces the one filed before under its
      number. Both the CSV load and the API merge work this way. */
  function UpsertUpTo<R>(base: map<string, R>, entries: seq<Keyed<R>>, n: nat): map<string, R>
    requires n <= |entries|
  {
    if n == 0 then base
    else
      var filed := UpsertUpTo(base, entries, n - 1);
      var e := entries[n - 1];
      if e.license == "" then filed else filed[e.license := e.row]
  }

  /** The filed keys are the base ones plus the entries' non-empty numbers. */
  lemma {:induction false} UpsertKeys<R>(base: map<string, R>, entries: seq<Keyed<R>>, n: nat, license: string)
    requires n <= |entries|
    ensures license in UpsertUpTo(base, entries, n) <==>
              license in base || (license != "" && exists i :: 0 <= i < n && entries[i].license == license)
  {
    if n > 0 {
      UpsertKeys(base, entries, n - 1, license);
      if entries[n - 1].license == license != "" {
        assert 0 <= n - 1 < n;
      } else if license != "" && exists i :: 0 <= i < n && entries[i].license == license {
        var i :| 0 <= i < n && entries[i].license == license;
        assert i < n - 1;
      }
    }
  }

  /** The row filed under a number is the last entry with that number. */
  lemma {:induction false} UpsertLastWins<R>(base: map<string, R>, entries: seq<Keyed<R>>, n: nat, i: nat)
    requires i < n <= |entries| && entries[i].license != ""
    requires forall j :: i < j < n ==> entries[j].license != entries[i].license
    ensures entries[i].license in UpsertUpTo(base, entries, n)
    ensures UpsertUpTo(base, entries, n)[entries[i].license] == entries[i].row
  {
    if i < n - 1 {
      UpsertLastWins(base, entries, n - 1, i);
    }
  }

  /** A base row no entry mentions is kept as it was. */
  lemma {:induction false} UpsertKeepsOthers<R>(base: map<string, R>, entries: seq<Keyed<R>>, n: nat, license: string)
    requires n <= |entries| && license in base
    requires forall i :: 0 <= i < n ==> entries[i].license != license
    ensures license in UpsertUpTo(base, entries, n)
    ensures UpsertUpTo(base, entries, n)[license] == base[license]
  {
    if n > 0 {
      UpsertKeepsOthers(base, entries, n - 1, license);
    }
  }

  /** Every row stays filed under its own licence number, never under "". */
  lemma {:induction false} UpsertKeyed(base: map<string, CsvRow>, entries: seq<Keyed<CsvRow>>, n: nat)
    requires n <= |entries|
    requires "" !in base && forall l :: l in base ==> LicenseOf(base[l]) == l
    requires forall i :: 0 <= i < n ==> LicenseOf(entries[i].row) == entries[i].license
    ensures "" !in UpsertUpTo(base, entries, n)
    ensures forall l :: l in UpsertUpTo(base, entries, n) ==> LicenseOf(UpsertUpTo(base, entries, n)[l]) == l
  {
    if n > 0 {
      UpsertKeyed(base, entries, n - 1);
    }
  }

  /** The non-empty licence numbers of the entries, in order. */
  function Licenses<R>(entries: seq<Keyed<R>>): (ls: seq<string>)
    ensures forall l :: l in ls <==> l != "" && exists i :: 0 <= i < |entries| && entries[i].license == l
  {
    if entries == [] then []
    else
      var init := Licenses(entries[..|entries| - 1]);
      assert forall i :: 0 <= i < |entries| - 1 ==> entries[..|entries| - 1][i] == entries[i];
      var last := entries[|entries| - 1].license;
      if last == "" then init else init + [last]
  }

  /** The filing loop: each entry with a licence number is stored under it. */
  method UpsertAll<R>(base: map<string, R>, entries: seq<Keyed<R>>) returns (filed: map<string, R>)
    ensures filed == UpsertUpTo(base, entries, |entries|)
  {
    filed := base;
    for i := 0 to |entries|
      invariant filed == UpsertUpTo(base, entries, i)
    {
      var licenseNumber := entries[i].license;
      if licenseNumber != "" {
        filed := filed[licenseNumber := entries[i].row];
      }
    }
  }

  // ---------------------------------------------------------------------------
  // load_existing_data
  // ---------------------------------------------------------------------------

  /** CSV rows, each under its own LicenseNumber cell. */
  function CsvKeyed(rows: seq<CsvRow>): (entries: seq<Keyed<CsvRow>>)
    ensures |entries| == |rows|
    ensures forall i :: 0 <= i < |rows| ==> entries[i] == Keyed(LicenseOf(rows[i]), rows[i])
  {
    seq(|rows|, i requires 0 <= i < |rows| => Keyed(LicenseOf(rows[i]), rows[i]))
  }

  /** None is a CSV file that does not exist. */
  function ExistingData(file: Option<seq<CsvRow>>): map<string, CsvRow> {
    match file
    case None => map[]
    case Some(rows) => UpsertUpTo(map[], CsvKeyed(rows), |rows|)
  }

  method LoadExistingData(file: Option<seq<CsvRow>>) returns (existingData: map<string, CsvRow>)
    ensures existingData == ExistingData(file)
  {
    if file.None? {
      return map[];
    }
    existingData := UpsertAll(map[], CsvKeyed(file.value));
  }

  /** A missing file loads nothing; otherwise a licence number is loaded
      exactly when some row carries it, with the last such row, filed under
      its own number. */
  lemma ExistingDataSpec(file: Option<seq<CsvRow>>, license: string)
    ensures file.None? ==> ExistingData(file) == map[]
    ensures "" !in ExistingData(file)
    ensures forall l :: l in ExistingData(file) ==> LicenseOf(ExistingData(file)[l]) == l
    ensures file.Some? ==>
              (license in ExistingData(file) <==>
                 license != "" && exists i :: 0 <= i < |file.value| && LicenseOf(file.value[i]) == license)
  {
    if file.Some? {
      var rows := file.value;
      UpsertKeyed(map[], CsvKeyed(rows), |rows|);
      UpsertKeys(map[], CsvKeyed(rows), |rows|, license);
      if license != "" && exists i :: 0 <= i < |rows| && LicenseOf(rows[i]) == license {
        var i :| 0 <= i < |rows| && LicenseOf(rows[i]) == license;
        assert CsvKeyed(rows)[i].license == license;
      }
    }
  }

  // ---------------------------------------------------------------------------
  // The upsert in main
  // ---------------------------------------------------------------------------

  /** The record cut down to the given columns, "" for a column it lacks. */
  function ProjectColumns(agency: CsvRow, columns: seq<string>): CsvRow {
    if columns == [] then map[]
    else ProjectColumns(agency, columns[..|columns| - 1])[columns[|columns| - 1] := Cell(agency, columns[|columns| - 1], "")]
  }

  /** The cut-down record has exactly the given columns, each the record's
      value or "". */
  lemma {:induction false} ProjectColumnsSpec(agency: CsvRow, columns: seq<string>)
    ensures forall c :: c in ProjectColumns(agency, columns) <==> c in columns
    ensures forall c :: c in ProjectColumns(agency, columns) ==> ProjectColumns(agency, columns)[c] == Cell(agency, c, "")
  {
    if columns != [] {
      var init := columns[..|columns| - 1];
      ProjectColumnsSpec(agency, init);
      assert columns == init + [columns[|columns| - 1]];
    }
  }

  /** The row kept for an API record; its licence number is the record's. */
  function Projected(agency: CsvRow): (row: CsvRow)
    ensures LicenseOf(row) == LicenseOf(agency)
  {
    ProjectColumnsSpec(agency, KeepColumns);
    assert KeepColumns[0] == "LicenseNumber";
    ProjectColumns(agency, KeepColumns)
  }

  /** The projected row has exactly the kept columns, each the record's
      value or "". */
  lemma ProjectedColumns(agency: CsvRow)
    ensures forall c :: c in Projected(agency) <==> c in KeepColumns
    ensures forall c :: c in Projected(agency) ==> Projected(agency)[c] == Cell(agency, c, "")
  {
    ProjectColumnsSpec(agency, KeepColumns);
  }

  /** API records, each projected and under its own LicenseNumber. */
  function ApiKeyed(agencies: seq<CsvRow>): (entries: seq<Keyed<CsvRow>>)
    ensures |entries| == |agencies|
    ensures forall i :: 0 <= i < |agencies| ==> entries[i] == Keyed(LicenseOf(agencies[i]), Projected(agencies[i]))
  {
    seq(|agencies|, i requires 0 <= i < |agencies| => Keyed(LicenseOf(agencies[i]), Projected(agencies[i])))
  }

  /** existing_data after the API loop. */
  function Merged(existing: map<string, CsvRow>, agencies: seq<CsvRow>): map<string, CsvRow> {
    UpsertUpTo(existing, ApiKeyed(agencies), |agencies|)
  }

  method Upsert(existing: map<string, CsvRow>, agencies: seq<CsvRow>) returns (merged: map<string, CsvRow>)
    ensures merged == Merged(existing, agencies)
  {
    merged := UpsertAll(existing, ApiKeyed(agencies));
  }

  /** The merged licence numbers are the existing ones plus the API's. */
  lemma MergedKeys(existing: map<string, CsvRow>, agencies: seq<CsvRow>, license: string)
    ensures license in Merged(existing, agencies) <==>
              license in existing || (license != "" && exists i :: 0 <= i < |agencies| && LicenseOf(agencies[i]) == license)
  {
    var entries := ApiKeyed(agencies);
    UpsertKeys(existing, entries, |agencies|, license);
    if license != "" && exists i :: 0 <= i < |agencies| && LicenseOf(agencies[i]) == license {
      var i :| 0 <= i < |agencies| && LicenseOf(agencies[i]) == license;
      assert entries[i].license == license;
    }
  }

  /** A CSV row the API does not mention is kept as it was. */
  lemma MergedKeepsCsvOnly(existing: map<string, CsvRow>, agencies: seq<CsvRow>, license: string)
    requires license in existing
    requires forall i :: 0 <= i < |agencies| ==> LicenseOf(agencies[i]) != license
    ensures license in Merged(existing, agencies) && Merged(existing, agencies)[license] == existing[license]
  {
    var entries := ApiKeyed(agencies);
    assert forall i :: 0 <= i < |agencies| ==> entries[i].license != license;
    UpsertKeepsOthers(existing, entries, |agencies|, license);
  }

  /** An API record with a licence number replaces the row filed under it;
      of several with the same number the last wins. */
  lemma MergedApiWins(existing: map<string, CsvRow>, agencies: seq<CsvRow>, i: nat)
    requires i < |agencies| && LicenseOf(agencies[i]) != ""
    requires forall j :: i < j < |agencies| ==> LicenseOf(agencies[j]) != LicenseOf(agencies[i])
    ensures LicenseOf(agencies[i]) in Merged(existing, agencies)
    ensures Merged(existing, agencies)[LicenseOf(agencies[i])] == Projected(agencies[i])
  {
    var entries := ApiKeyed(agencies);
    assert forall j :: i < j < |agencies| ==> entries[j].license != entries[i].license;
    UpsertLastWins(existing, entries, |agencies|, i);
  }

  /** The candidate keys: the CSV's licence numbers, then the API's. */
  function Candidates(file: Option<seq<CsvRow>>, agencies: seq<CsvRow>): seq<string> {
    (if file.None? then [] else Licenses(CsvKeyed(file.value))) + Licenses(ApiKeyed(agencies))
  }

  /** The merged keys are exactly the candidates. */
  lemma CandidatesAreKeys(file: Option<seq<CsvRow>>, agencies: seq<CsvRow>, license: string)
    ensures license in Merged(ExistingData(file), agencies) <==> license in Candidates(file, agencies)
  {
    UpsertKeys(ExistingData(file), ApiKeyed(agencies), |agencies|, license);
    if file.Some? {
      UpsertKeys(map[], CsvKeyed(file.value), |file.value|, license);
    }
  }

  /** sorted(existing_data.keys()). */
  function SortedKeys(file: Option<seq<CsvRow>>, agencies: seq<CsvRow>): (keys: seq<string>)
    ensures StrictlySorted(keys)
    ensures forall l :: l in keys <==> l in Merged(ExistingData(file), agencies)
  {
    var keys := SortedSet(Candidates(file, agencies));
    assert forall l :: l in keys <==> l in Merged(ExistingData(file), agencies) by {
      forall l ensures l in keys <==> l in Merged(ExistingData(file), agencies) {
        CandidatesAreKeys(file, agencies, l);
      }
    }
    keys
  }

  /** The rows written, one per sorted key. */
  function RowsOf(merged: map<string, CsvRow>, keys: seq<string>): (rows: seq<CsvRow>)
    requires forall l :: l in keys ==> l in merged
    ensures |rows| == |keys|
    ensures forall i :: 0 <= i < |keys| ==> rows[i] == merged[keys[i]]
  {
    seq(|keys|, i requires 0 <= i < |keys| => merged[keys[i]])
  }

  /** The rows main writes, or None when the fetch failed or returned an
      empty reply and nothing is written. */
  function PullRun(file: Option<seq<CsvRow>>, fetched: Option<seq<CsvRow>>): Option<seq<CsvRow>> {
    match fetched
    case None => None
    case Some(agencies) =>
      Some(RowsOf(Merged(ExistingData(file), agencies), SortedKeys(file, agencies)))
  }

  /** main: load, fetch, upsert, write in licence-number order. */
  method PullFacilityInfo(file: Option<seq<CsvRow>>, fetched: Option<seq<CsvRow>>) returns (written: Option<seq<CsvRow>>)
    ensures written == PullRun(file, fetched)
  {
    var existingData := LoadExistingData(file);
    if fetched.None? {
      return None;
    }
    var agencyList := fetched.value;
    var merged := Upsert(existingData, agencyList);
    var keys := SortedKeys(file, agencyList);
    var rows: seq<CsvRow> := [];
    for k := 0 to |keys|
      invariant |rows| == k
      invariant forall j :: 0 <= j < k ==> rows[j] == merged[keys[j]]
    {
      rows := rows + [merged[keys[k]]];
    }
    assert rows == RowsOf(merged, keys);
    written := Some(rows);
  }

  /** A strictly increasing list has as many elements as its set. */
  lemma {:induction false} SortedCard(xs: seq<string>)
    requires StrictlySorted(xs)
    ensures |set x | x in xs| == |xs|
  {
    if xs != [] {
      var init := xs[..|xs| - 1];
      var last := xs[|xs| - 1];
      assert last !in init by {
        forall i | 0 <= i < |init| ensures init[i] != last {
          StrictlySortedDistinct(xs, i, |xs| - 1);
        }
      }
      assert StrictlySorted(init) by {
        forall i, j | 0 <= i < j < |init| ensures LexLess(init[i], init[j]) {
          assert init[i] == xs[i] && init[j] == xs[j];
        }
      }
      SortedCard(init);
      var all, before := set x | x in xs, set x | x in init;
      assert all == before + {last} by {
        assert xs == init + [last];
      }
      assert |all| == |before| + 1;
    }
  }

  /** Writing the rows of a map keyed by its rows' own licence numbers in
      sorted-key order gives one row per key, in strictly increasing
      licence-number order. */
  lemma RowsOfSpec(merged: map<string, CsvRow>, keys: seq<string>)
    requires forall l :: l in merged ==> LicenseOf(merged[l]) == l
    requires StrictlySorted(keys) && forall l :: l in keys <==> l in merged
    ensures |RowsOf(merged, keys)| == |merged|
    ensures forall i, j :: 0 <= i < j < |keys| ==>
              LexLess(LicenseOf(RowsOf(merged, keys)[i]), LicenseOf(RowsOf(merged, keys)[j]))
    ensures forall l :: l in merged <==> exists i :: 0 <= i < |keys| && LicenseOf(RowsOf(merged, keys)[i]) == l
  {
    var rows := RowsOf(merged, keys);
    SortedCard(keys);
    assert (set x | x in keys) == merged.Keys;
    forall i | 0 <= i < |rows| ensures LicenseOf(rows[i]) == keys[i] {
      assert keys[i] in keys;
    }
    forall l | l in merged ensures exists i :: 0 <= i < |keys| && LicenseOf(rows[i]) == l {
      var i :| 0 <= i < |keys| && keys[i] == l;
      assert LicenseOf(rows[i]) == l;
    }
  }

  /** Every merged row is filed under its own licence number. */
  lemma MergedKeyed(file: Option<seq<CsvRow>>, agencies: seq<CsvRow>)
    ensures forall l :: l in Merged(ExistingData(file), agencies) ==> LicenseOf(Merged(ExistingData(file), agencies)[l]) == l
  {
    ExistingDataSpec(file, "");
    UpsertKeyed(ExistingData(file), ApiKeyed(agencies), |agencies|);
  }

  /** A failed fetch writes nothing; otherwise one row per merged licence
      number, in strictly increasing licence-number order, each row under its
      own licence number. */
  lemma PullRunSpec(file: Option<seq<CsvRow>>, fetched: Option<seq<CsvRow>>)
    ensures fetched.None? ==> PullRun(file, fetched).None?
    ensures fetched.Some? ==>
      var merged := Merged(ExistingData(file), fetched.value);
      var written := PullRun(file, fetched);
      && written.Some?
      && |written.value| == |merged|
      && (forall i, j :: 0 <= i < j < |written.value| ==>
            LexLess(LicenseOf(written.value[i]), LicenseOf(written.value[j])))
      && (forall l :: l in merged <==> exists i :: 0 <= i < |written.value| && LicenseOf(written.value[i]) == l)
  {
    if fetched.Some? {
      MergedKeyed(file, fetched.value);
      RowsOfSpec(Merged(ExistingData(file), fetched.value), SortedKeys(file, fetched.value));
    }
  }
}
