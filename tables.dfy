/** Numeric data frames as the batch jobs read them from CSV: named columns of equal length. */
module Tables {
  import opened Wrappers
  import FeatureContract

  datatype Table = Table(names: seq<string>, columns: seq<seq<real>>, rows: nat)

  /** Rectangular, with distinct column names (the CSV reader renames duplicates). */
  ghost predicate WellFormed(t: Table)
  {
    && |t.names| == |t.columns|
    && (forall j :: 0 <= j < |t.columns| ==> |t.columns[j]| == t.rows)
    && FeatureContract.Distinct(t.names)
  }

  /** The position of `name` among `names`. */
  function IndexOf(names: seq<string>, name: string): (r: Option<nat>)
    ensures r.None? <==> name !in names
    ensures r.Some? ==> r.value < |names| && names[r.value] == name
  {
    if names == [] then None
    else if names[0] == name then Some(0)
    else
      var rest := IndexOf(names[1..], name);
      if rest.Some? then Some(rest.value + 1) else None
  }

  /** `df[name]` for a single label. */
  function ColumnNamed(t: Table, name: string): (r: Option<seq<real>>)
    requires |t.names| == |t.columns|
    ensures r.None? <==> name !in t.names
    ensures r.Some? ==> exists j :: 0 <= j < |t.names| && t.names[j] == name && r.value == t.columns[j]
  {
    var k := IndexOf(t.names, name);
    if k.Some? then Some(t.columns[k.value]) else None
  }

  /** The values of `column` at the given rows, in that order. */
  function Pick(column: seq<real>, rows: seq<nat>): (r: seq<real>)
    requires forall i :: 0 <= i < |rows| ==> rows[i] < |column|
    ensures |r| == |rows| && forall i :: 0 <= i < |rows| ==> r[i] == column[rows[i]]
  {
    seq(|rows|, i requires 0 <= i < |rows| => column[rows[i]])
  }

  /** In a well-formed table the label at position j names column j. */
  lemma ColumnAt(t: Table, j: nat)
    requires WellFormed(t) && j < |t.names|
    ensures ColumnNamed(t, t.names[j]) == Some(t.columns[j])
  {
  }

  /** In a well-formed table a name picks out one column. */
  lemma NamesPickOneColumn(t: Table, j: nat, k: nat)
    requires WellFormed(t) && j < |t.names| && k < |t.names| && t.names[j] == t.names[k]
    ensures j == k
  {
  }
}
