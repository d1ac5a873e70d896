/** The row factory installed on every connection (`dict_factory`). */
module Rows {
  import Seqs

  /** The index `i` holds the last occurrence of its name in `columns`. */
  predicate IsLastOccurrence(columns: seq<string>, i: int)
    requires 0 <= i < |columns|
  {
    forall j :: i < j < |columns| ==> columns[j] != columns[i]
  }

  /**
   * Turns a positional row into a record keyed by column name: the column
   * names are the first items of the cursor's description, in order. A name
   * that occurs twice is bound to the value of its last occurrence.
   */
  method DictFactory<V>(columns: seq<string>, row: seq<V>) returns (d: map<string, V>)
    requires |columns| <= |row|
    ensures d.Keys == set c | c in columns
    ensures forall i :: 0 <= i < |columns| && IsLastOccurrence(columns, i) ==> d[columns[i]] == row[i]
  {
    d := map[];
    var idx := 0;
    while idx < |columns|
      invariant 0 <= idx <= |columns|
      invariant d.Keys == set c | c in columns[..idx]
      invariant forall i :: 0 <= i < idx && IsLastOccurrence(columns[..idx], i) ==> d[columns[i]] == row[i]
    {
      d := d[columns[idx] := row[idx]];
      idx := idx + 1;
      assert columns[..idx] == columns[..idx - 1] + [columns[idx - 1]];
    }
    assert columns[..idx] == columns;
  }

  /**
   * With distinct column names the record has exactly one key per column,
   * each bound to the row value at that column's index.
   */
  lemma DistinctColumnsZip<V>(columns: seq<string>, row: seq<V>, d: map<string, V>)
    requires |columns| <= |row|
    requires Seqs.Distinct(columns)
    requires d.Keys == set c | c in columns
    requires forall i :: 0 <= i < |columns| && IsLastOccurrence(columns, i) ==> d[columns[i]] == row[i]
    ensures |d| == |columns|
    ensures forall i :: 0 <= i < |columns| ==> d[columns[i]] == row[i]
  {
    Seqs.DistinctCard(columns);
    assert d.Keys == Seqs.Elems(columns);
  }
}
