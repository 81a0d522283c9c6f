/** Dictionaries filled by a sequence of assignments `d[key] = value`, the
    pattern every loader and merge in the pipeline follows: a later
    assignment to a key overwrites an earlier one. */
module Dicts {
  /** A csv.DictReader row or a JSON record of strings: field name to value. */
  type CsvRow = map<string, string>

  /** row.get(column, default) */
  function Cell(row: CsvRow, column: string, default: string): string {
    if column in row then row[column] else default
  }

  /** The keys assigned by the first n assignments. */
  function KeysOf(keys: seq<string>, n: nat): set<string>
    requires n <= |keys|
  {
    if n == 0 then {} else KeysOf(keys, n - 1) + {keys[n - 1]}
  }

  /** A key is among the first n assigned keys exactly when one of them is it. */
  lemma {:induction false} KeysOfCited(keys: seq<string>, n: nat)
    requires n <= |keys|
    ensures forall k :: k in KeysOf(keys, n) <==> exists i :: 0 <= i < n && keys[i] == k
  {
    if n > 0 {
      KeysOfCited(keys, n - 1);
      forall k | k in KeysOf(keys, n)
        ensures exists i :: 0 <= i < n && keys[i] == k
      {
        if k != keys[n - 1] {
          assert k in KeysOf(keys, n - 1);
          var i :| 0 <= i < n - 1 && keys[i] == k;
          assert 0 <= i < n && keys[i] == k;
        }
      }
    }
  }

  /** The dictionary after the assignments d[keys[i]] = vals[i] for i < n, in order. */
  function Assign<V>(keys: seq<string>, vals: seq<V>, n: nat): (d: map<string, V>)
    requires n <= |keys| && n <= |vals|
    ensures d.Keys == KeysOf(keys, n)
  {
    if n == 0 then map[] else Assign(keys, vals, n - 1)[keys[n - 1] := vals[n - 1]]
  }

  /** The value left under a key is the one of its last assignment. */
  lemma {:induction false} AssignLastWins<V>(keys: seq<string>, vals: seq<V>, n: nat, i: nat)
    requires i < n <= |keys| && n <= |vals|
    requires forall j :: i < j < n ==> keys[j] != keys[i]
    ensures keys[i] in Assign(keys, vals, n) && Assign(keys, vals, n)[keys[i]] == vals[i]
    decreases n
  {
    if i < n - 1 {
      AssignLastWins(keys, vals, n - 1, i);
    }
  }
}
