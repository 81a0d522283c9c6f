/** Keyword reduction: a curated table maps each original violation keyword to
    a reduced keyword, or to the empty string to discard it; a keyword list is
    reduced by mapping each keyword, dropping the discarded ones and keeping
    the first occurrence of each reduced keyword. */
module KeywordReduction {
  import opened Strings
  import opened Wrappers

  /** One row of the reduction table; an absent column reads as "". */
  datatype ReductionRow = ReductionRow(original: string, reduced: string)

  // ---------------------------------------------------------------------------
  // Loading the table
  // ---------------------------------------------------------------------------

  /** Each row's original and reduction, stripped. */
  function StrippedRows(rows: seq<ReductionRow>): (ps: seq<(string, string)>)
    ensures |ps| == |rows|
  {
    seq(|rows|, i requires 0 <= i < |rows| => (Strip(rows[i].original), Strip(rows[i].reduced)))
  }

  /** The table after the first n stripped rows: a row with an empty original
      is skipped, and a later row overwrites an earlier one. */
  function TableUpTo(ps: seq<(string, string)>, n: nat): (table: map<string, string>)
    requires n <= |ps|
    ensures "" !in table
  {
    if n == 0 then map[]
    else
      var table := TableUpTo(ps, n - 1);
      var (original, reduced) := ps[n - 1];
      if original != "" then table[original := reduced] else table
  }

  /** The table read from a file: None is a file that does not exist. */
  function KeywordTable(file: Option<seq<ReductionRow>>): (table: map<string, string>)
    ensures file.None? ==> table == map[]
  {
    match file
    case None => map[]
    case Some(rows) => TableUpTo(StrippedRows(rows), |rows|)
  }

  /** One row of the loading loop: a row with a non-empty stripped original
      sets its stripped reduction under it. */
  method LoadRow(rows: seq<ReductionRow>, i: nat, keywordMap: map<string, string>)
    returns (next: map<string, string>)
    requires i < |rows| && keywordMap == TableUpTo(StrippedRows(rows), i)
    ensures next == TableUpTo(StrippedRows(rows), i + 1)
  {
    var original := Strip(rows[i].original);
    var reduced := Strip(rows[i].reduced);
    assert StrippedRows(rows)[i] == (original, reduced);
    next := keywordMap;
    if original != "" {
      next := keywordMap[original := reduced];
    }
  }

  /** load_keyword_reduction_map. */
  method LoadKeywordReductionMap(file: Option<seq<ReductionRow>>) returns (keywordMap: map<string, string>)
    ensures keywordMap == KeywordTable(file)
  {
    keywordMap := map[];
    if file.None? {
      return;
    }
    var rows := file.value;
    ghost var ps := StrippedRows(rows);
    assert keywordMap == TableUpTo(ps, 0);
    for i := 0 to |rows|
      invariant keywordMap == TableUpTo(ps, i)
    {
      keywordMap := LoadRow(rows, i, keywordMap);
    }
    assert keywordMap == TableUpTo(ps, |ps|);
  }

  /** The table's keys are exactly the non-empty originals among the first n rows. */
  lemma {:induction false} TableKeys(ps: seq<(string, string)>, n: nat, k: string)
    requires n <= |ps|
    ensures k in TableUpTo(ps, n) <==> k != "" && exists i :: 0 <= i < n && ps[i].0 == k
  {
    if n > 0 {
      TableKeys(ps, n - 1, k);
      if k in TableUpTo(ps, n) && k != ps[n - 1].0 {
        var i :| 0 <= i < n - 1 && ps[i].0 == k;
        assert 0 <= i < n && ps[i].0 == k;
      }
    }
  }

  /** The value under a key is the reduction of the last row naming it. */
  lemma {:induction false} TableLastRowWins(ps: seq<(string, string)>, n: nat, i: nat)
    requires i < n <= |ps| && ps[i].0 != ""
    requires forall j :: i < j < n ==> ps[j].0 != ps[i].0
    ensures ps[i].0 in TableUpTo(ps, n)
    ensures TableUpTo(ps, n)[ps[i].0] == ps[i].1
  {
    if i < n - 1 {
      TableLastRowWins(ps, n - 1, i);
    }
  }

  // ---------------------------------------------------------------------------
  // Applying the table
  // ---------------------------------------------------------------------------

  /** keyword_map.get(keyword, keyword). */
  function Reduce(table: map<string, string>, keyword: string): (r: string)
    ensures keyword !in table ==> r == keyword
    ensures keyword in table ==> r == table[keyword]
  {
    if keyword in table then table[keyword] else keyword
  }

  /** The reduced list after the first n keywords: a reduction that is empty
      or already listed is dropped. */
  function ReducedUpTo(keywords: seq<string>, table: map<string, string>, n: nat): (out: seq<string>)
    requires n <= |keywords|
    ensures |out| <= n
  {
    if n == 0 then []
    else
      var out := ReducedUpTo(keywords, table, n - 1);
      var reduced := Reduce(table, keywords[n - 1]);
      if reduced == "" || reduced in out then out else out + [reduced]
  }

  /** apply_keyword_reduction: an empty table leaves the list as it is. */
  function ReducedKeywords(keywords: seq<string>, table: map<string, string>): (out: seq<string>)
    ensures table == map[] ==> out == keywords
    ensures |out| <= |keywords|
  {
    if table == map[] then keywords else ReducedUpTo(keywords, table, |keywords|)
  }

  /** apply_keyword_reduction, with the `seen` set beside the output list. */
  method ApplyKeywordReduction(keywords: seq<string>, keywordMap: map<string, string>)
    returns (reducedKeywords: seq<string>)
    ensures reducedKeywords == ReducedKeywords(keywords, keywordMap)
  {
    if |keywordMap| == 0 {
      return keywords;
    }
    reducedKeywords := [];
    var seen: set<string> := {};
    for i := 0 to |keywords|
      invariant reducedKeywords == ReducedUpTo(keywords, keywordMap, i)
      invariant seen == set x | x in reducedKeywords
    {
      var reduced := Reduce(keywordMap, keywords[i]);
      if reduced == "" {
        continue;
      }
      if reduced !in seen {
        reducedKeywords := reducedKeywords + [reduced];
        seen := seen + {reduced};
      }
    }
  }

  /** The first position of x in s, or |s| when x does not occur. */
  function FirstPos(s: seq<string>, x: string): (k: nat)
    ensures k <= |s|
    ensures k < |s| ==> s[k] == x
    ensures forall j :: 0 <= j < k ==> s[j] != x
  {
    if s == [] then 0
    else if s[0] == x then 0
    else 1 + FirstPos(s[1..], x)
  }

  /** Each keyword's reduction, before anything is dropped. */
  function Reductions(keywords: seq<string>, table: map<string, string>): (rs: seq<string>)
    ensures |rs| == |keywords|
    ensures forall i :: 0 <= i < |keywords| ==> rs[i] == Reduce(table, keywords[i])
  {
    seq(|keywords|, i requires 0 <= i < |keywords| => Reduce(table, keywords[i]))
  }

  /** The reduced list holds exactly the non-empty reductions of the first n keywords. */
  lemma {:induction false} ReducedUpToMembers(keywords: seq<string>, table: map<string, string>, n: nat)
    requires n <= |keywords|
    ensures forall x :: x in ReducedUpTo(keywords, table, n) <==>
              x != "" && x in Reductions(keywords, table)[..n]
  {
    if n > 0 {
      ReducedUpToMembers(keywords, table, n - 1);
      var rs := Reductions(keywords, table);
      assert rs[..n] == rs[..n - 1] + [rs[n - 1]];
    }
  }

  /** The elements of out appear in the order of their first occurrence in rs. */
  predicate FirstOccurrenceOrder(out: seq<string>, rs: seq<string>) {
    forall i, j :: 0 <= i < j < |out| ==> FirstPos(rs, out[i]) < FirstPos(rs, out[j])
  }

  /** Appending to the reductions keeps the order of a list drawn from them. */
  lemma OrderExtends(out: seq<string>, prev: seq<string>, y: string)
    requires FirstOccurrenceOrder(out, prev) && forall x :: x in out ==> x in prev
    ensures FirstOccurrenceOrder(out, prev + [y])
  {
    forall x | x in prev
      ensures FirstPos(prev + [y], x) == FirstPos(prev, x)
    {
      FirstPosPrefix(prev, y, x);
    }
    forall i, j | 0 <= i < j < |out|
      ensures FirstPos(prev + [y], out[i]) < FirstPos(prev + [y], out[j])
    {
      assert out[i] in out && out[j] in out;
    }
  }

  /** Appending a new reduction to both lists keeps the order. */
  lemma OrderAppends(out: seq<string>, prev: seq<string>, y: string)
    requires FirstOccurrenceOrder(out, prev) && forall x :: x in out ==> x in prev
    requires y !in prev
    ensures FirstOccurrenceOrder(out + [y], prev + [y])
  {
    OrderExtends(out, prev, y);
    FirstPosPrefix(prev, y, y);
    var out' := out + [y];
    forall i, j | 0 <= i < j < |out'|
      ensures FirstPos(prev + [y], out'[i]) < FirstPos(prev + [y], out'[j])
    {
      assert out'[i] == out[i] && out[i] in out;
      FirstPosPrefix(prev, y, out[i]);
      if j < |out| {
        assert out'[j] == out[j];
      }
    }
  }

  /** The reduced list follows the order of first occurrence among the reductions. */
  lemma {:induction false} ReducedUpToOrder(keywords: seq<string>, table: map<string, string>, n: nat)
    requires n <= |keywords|
    ensures FirstOccurrenceOrder(ReducedUpTo(keywords, table, n), Reductions(keywords, table)[..n])
  {
    if n > 0 {
      ReducedUpToOrder(keywords, table, n - 1);
      ReducedUpToMembers(keywords, table, n - 1);
      var out := ReducedUpTo(keywords, table, n - 1);
      var prev := Reductions(keywords, table)[..n - 1];
      var y := Reduce(table, keywords[n - 1]);
      assert Reductions(keywords, table)[..n] == prev + [y];
      if y == "" || y in out {
        OrderExtends(out, prev, y);
      } else {
        OrderAppends(out, prev, y);
      }
    }
  }

  /** Appending an element does not move the first position of anything
      already present, and a new element is found at the end. */
  lemma {:induction false} FirstPosPrefix(s: seq<string>, y: string, x: string)
    ensures x in s ==> FirstPos(s + [y], x) == FirstPos(s, x) < |s|
    ensures x !in s && x == y ==> FirstPos(s + [y], x) == |s|
  {
    if s != [] {
      assert (s + [y])[1..] == s[1..] + [y];
      FirstPosPrefix(s[1..], y, x);
    }
  }

  predicate Distinct(s: seq<string>) {
    forall i, j :: 0 <= i < j < |s| ==> s[i] != s[j]
  }

  /** No reduced keyword is listed twice. */
  lemma {:induction false} ReducedUpToDistinct(keywords: seq<string>, table: map<string, string>, n: nat)
    requires n <= |keywords|
    ensures Distinct(ReducedUpTo(keywords, table, n))
  {
    if n > 0 {
      ReducedUpToDistinct(keywords, table, n - 1);
      var out := ReducedUpTo(keywords, table, n - 1);
      var reduced := Reduce(table, keywords[n - 1]);
      if !(reduced == "" || reduced in out) {
        var out' := out + [reduced];
        forall i, j | 0 <= i < j < |out'|
          ensures out'[i] != out'[j]
        {
          if j == |out| {
            assert out'[j] == reduced;
            assert out'[i] == out[i];
            assert out[i] in out;
            assert out[i] != reduced;
          } else {
            assert out'[i] == out[i] && out'[j] == out[j];
            assert out[i] != out[j];
          }
        }
      }
    }
  }

  /** With a non-empty table: no reduced keyword is empty or repeated, every
      one is the reduction of some input keyword, every non-empty reduction
      is listed, and the list follows the order of first occurrence. */
  lemma ReducedKeywordsSpec(keywords: seq<string>, table: map<string, string>)
    requires table != map[]
    ensures Distinct(ReducedKeywords(keywords, table))
    ensures forall x :: x in ReducedKeywords(keywords, table) <==>
              x != "" && exists i :: 0 <= i < |keywords| && Reduce(table, keywords[i]) == x
    ensures FirstOccurrenceOrder(ReducedKeywords(keywords, table), Reductions(keywords, table))
  {
    var rs := Reductions(keywords, table);
    assert ReducedKeywords(keywords, table) == ReducedUpTo(keywords, table, |keywords|);
    ReducedUpToMembers(keywords, table, |keywords|);
    ReducedUpToOrder(keywords, table, |keywords|);
    ReducedUpToDistinct(keywords, table, |keywords|);
    assert rs[..|keywords|] == rs;
    forall x
      ensures x in rs <==> exists i :: 0 <= i < |keywords| && Reduce(table, keywords[i]) == x
    {
      if x in rs {
        var i :| 0 <= i < |rs| && rs[i] == x;
        assert Reduce(table, keywords[i]) == x;
      }
    }
  }

  /** The empty reduction of a discarded keyword is never listed. */
  lemma DiscardedNeverListed(keywords: seq<string>, table: map<string, string>, k: string)
    requires k in table && table[k] == ""
    ensures table[k] !in ReducedKeywords(keywords, table)
  {
    assert table != map[];
    assert ReducedKeywords(keywords, table) == ReducedUpTo(keywords, table, |keywords|);
    ReducedUpToMembers(keywords, table, |keywords|);
  }
}
