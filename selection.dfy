/** The work selection shared by the three AI-query scripts: the documents not
    yet processed, in increasing order of their SHA-256 text, cut to the
    requested count. */
module Selection {
  import opened Strings

  /** The elements of xs that are not in `existing`, in their order. */
  function Without(xs: seq<string>, existing: set<string>): (r: seq<string>)
    ensures |r| <= |xs|
    ensures forall x :: x in r <==> x in xs && x !in existing
  {
    if xs == [] then []
    else
      var rest := Without(xs[..|xs| - 1], existing);
      assert forall x :: x in xs <==> x in xs[..|xs| - 1] || x == xs[|xs| - 1];
      if xs[|xs| - 1] in existing then rest else rest + [xs[|xs| - 1]]
  }

  /** sorted(set(all) - existing)[:count]. */
  function SelectMissing(all: seq<string>, existing: set<string>, count: int): seq<string> {
    Take(SortedSet(Without(all, existing)), count)
  }

  /** The selection is in strictly increasing order, holds only documents
      that are listed and not yet processed, has the requested size when
      enough are missing, and takes the smallest missing ones: every missing
      document left out comes after every one selected. */
  lemma SelectMissingSpec(all: seq<string>, existing: set<string>, count: int)
    ensures StrictlySorted(SelectMissing(all, existing, count))
    ensures forall x :: x in SelectMissing(all, existing, count) ==> x in all && x !in existing
    ensures count >= 0 ==> |SelectMissing(all, existing, count)| == Min(count, |SortedSet(Without(all, existing))|)
    ensures forall x, y ::
              (x in all && x !in existing && x !in SelectMissing(all, existing, count) &&
               y in SelectMissing(all, existing, count)) ==> LexLess(y, x)
  {
    var sorted := SortedSet(Without(all, existing));
    var r := SelectMissing(all, existing, count);
    assert r == sorted[..|r|];
    forall x, y | x in all && x !in existing && x !in r && y in r
      ensures LexLess(y, x)
    {
      var m :| 0 <= m < |sorted| && sorted[m] == x;
      var j :| 0 <= j < |r| && r[j] == y;
      assert sorted[j] == y;
    }
  }
}
