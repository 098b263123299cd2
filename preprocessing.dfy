/**
 * The batch preprocessing job. The table read from the input CSV is
 * changed in place: every column but the two geographic ones is clipped
 * at its own 95th percentile, then `RoomsPerHousehold` is derived. The nine
 * features and the `MedHouseVal` target are then selected and the rows split
 * 80/20 into a train and a test table, each with the features followed by
 * the target.
 *
 * The shuffle behind the split is an input: `perm` is the permutation of
 * row numbers the seeded generator produced.
 */
module Preprocessing {
  import opened Wrappers
  import opened Tables
  import Percentile
  import FeatureContract

  const CapQuantile: real := 0.95
  const TestSize: real := 0.2
  const TargetColumn: string := "MedHouseVal"
  const DerivedColumn: string := "RoomsPerHousehold"
  const TotalRooms: string := "TotalRooms"
  const Households: string := "Households"

  /** The columns of each output table, in order. */
  const OutputColumns: seq<string> := FeatureContract.Features + [TargetColumn]

  /** The exceptions that end the job. */
  datatype ProcessError =
    | MissingColumn(name: string)           // KeyError from df[name]
    | MissingColumns(names: seq<string>)    // KeyError from df[feature_cols]
    | ZeroHouseholds                        // a zero divisor in RoomsPerHousehold
    | EmptyTrainSet(samples: nat)           // ValueError from train_test_split

  predicate IsGeographic(name: string)
  {
    name == FeatureContract.Latitude || name == FeatureContract.Longitude
  }

  // -------------------------------------------------------------- capping

  /**
   * One column after capping. A column with no rows has a NaN percentile,
   * and clipping at NaN changes nothing.
   */
  function CapColumn(name: string, column: seq<real>): (r: seq<real>)
    ensures |r| == |column|
  {
    if IsGeographic(name) || |column| == 0 then column
    else Percentile.Clip(column, Percentile.Quantile(column, CapQuantile))
  }

  /** The table after the capping loop. */
  function CapAll(t: Table): (r: Table)
    requires |t.names| == |t.columns|
    ensures r.names == t.names && r.rows == t.rows && |r.columns| == |t.columns|
    ensures WellFormed(t) ==> WellFormed(r)
  {
    Table(t.names, seq(|t.columns|, j requires 0 <= j < |t.columns| => CapColumn(t.names[j], t.columns[j])), t.rows)
  }

  /** After capping, no value of a capped column exceeds that column's own 95th percentile. */
  lemma CapBound(t: Table, j: nat, i: nat)
    requires WellFormed(t) && j < |t.columns| && i < t.rows && !IsGeographic(t.names[j])
    ensures CapAll(t).columns[j][i] <= Percentile.Quantile(t.columns[j], CapQuantile)
  {
  }

  /** Latitude and Longitude come out of the capping loop unchanged. */
  lemma CapKeepsGeography(t: Table, j: nat)
    requires |t.names| == |t.columns| && j < |t.columns| && IsGeographic(t.names[j])
    ensures CapAll(t).columns[j] == t.columns[j]
  {
  }

  /**
   * Capping only ever clips from above: a value at or below the cap is kept
   * and one above it becomes exactly the cap, and the cap lies between the
   * least and the greatest value of the column.
   */
  lemma CapClipsFromAbove(t: Table, j: nat, i: nat)
    requires WellFormed(t) && j < |t.columns| && i < t.rows && !IsGeographic(t.names[j])
    ensures var cap := Percentile.Quantile(t.columns[j], CapQuantile);
      && (t.columns[j][i] <= cap ==> CapAll(t).columns[j][i] == t.columns[j][i])
      && (t.columns[j][i] > cap ==> CapAll(t).columns[j][i] == cap)
      && (exists lo :: 0 <= lo < t.rows && t.columns[j][lo] <= cap)
      && (exists hi :: 0 <= hi < t.rows && cap <= t.columns[j][hi])
  {
    Percentile.ClipPointwise(t.columns[j], Percentile.Quantile(t.columns[j], CapQuantile), i);
  }

  /** What capping does to a column depends on that column alone. */
  lemma CapIsColumnwise(t: Table, u: Table, j: nat)
    requires |t.names| == |t.columns| && |u.names| == |u.columns|
    requires j < |t.columns| && j < |u.columns|
    requires t.names[j] == u.names[j] && t.columns[j] == u.columns[j]
    ensures CapAll(t).columns[j] == CapAll(u).columns[j]
  {
  }

  /** Clipping a capped column once more at the same cap changes nothing. */
  lemma ReclipSameCap(t: Table, j: nat)
    requires WellFormed(t) && j < |t.columns| && t.rows > 0
    ensures var cap := Percentile.Quantile(t.columns[j], CapQuantile);
      IsGeographic(t.names[j]) || Percentile.Clip(CapAll(t).columns[j], cap) == CapAll(t).columns[j]
  {
    if !IsGeographic(t.names[j]) {
      Percentile.ClipIdempotent(t.columns[j], Percentile.Quantile(t.columns[j], CapQuantile));
    }
  }

  /** With two rows the 95th percentile is 95% of the way from the smaller value to the larger. */
  lemma QuantileOfTwo(a: real, b: real)
    requires a <= b
    ensures Percentile.Quantile([a, b], CapQuantile) == a + CapQuantile * (b - a)
  {
    assert [a, b][1..] == [b];
    assert [b][1..] == [];
    assert Percentile.Sort([b]) == [b];
    assert Percentile.Sort([a, b]) == Percentile.Insert(a, [b]) == [a, b];
    assert Percentile.Position(2, CapQuantile) == (0, CapQuantile);
  }

  /**
   * Running the whole capping loop a second time is not a no-op: the
   * percentile is recomputed from the clipped column and can be lower.
   * For the two-row column [0, 1] the first cap is 0.95 and the second 0.9025.
   */
  lemma RecappingIsNotIdempotent()
    ensures var t := Table(["MedInc"], [[0.0, 1.0]], 2);
      CapAll(CapAll(t)) != CapAll(t)
  {
    var t := Table(["MedInc"], [[0.0, 1.0]], 2);
    QuantileOfTwo(0.0, 1.0);
    var once := Percentile.Clip([0.0, 1.0], 0.95);
    assert once == [0.0, 0.95];
    assert CapAll(t).columns[0] == once;
    QuantileOfTwo(0.0, 0.95);
    var twice := Percentile.Clip(once, 0.9025);
    assert twice[1] == 0.9025;
    assert CapAll(CapAll(t)).columns[0] == twice;
  }

  // ----------------------------------------------------------- derivation

  /** `df["TotalRooms"] / df["Households"]`, row by row. */
  function RoomsPerHousehold(t: Table): (r: Result<seq<real>, ProcessError>)
    requires WellFormed(t)
    ensures r.Success? <==>
      TotalRooms in t.names && Households in t.names && 0.0 !in ColumnNamed(t, Households).value
    ensures TotalRooms !in t.names ==> r == Failure(MissingColumn(TotalRooms))
    ensures TotalRooms in t.names && Households !in t.names ==> r == Failure(MissingColumn(Households))
    ensures TotalRooms in t.names && Households in t.names && 0.0 in ColumnNamed(t, Households).value ==>
      r == Failure(ZeroHouseholds)
    ensures r.Success? ==>
      var total := ColumnNamed(t, TotalRooms).value;
      var households := ColumnNamed(t, Households).value;
      |r.value| == t.rows && forall i :: 0 <= i < t.rows ==> r.value[i] == total[i] / households[i]
  {
    var total := ColumnNamed(t, TotalRooms);
    var households := ColumnNamed(t, Households);
    if total.None? then Failure(MissingColumn(TotalRooms))
    else if households.None? then Failure(MissingColumn(Households))
    else if 0.0 in households.value then Failure(ZeroHouseholds)
    else
      var tc := total.value;
      var hc := households.value;
      assert |tc| == t.rows && |hc| == t.rows;
      Success(seq(t.rows, i requires 0 <= i < t.rows => tc[i] / hc[i]))
  }

  /** `df[name] = column`: an existing column of that name is replaced in place, otherwise one is appended. */
  function WithColumn(t: Table, name: string, column: seq<real>): (r: Table)
    requires WellFormed(t) && |column| == t.rows
    ensures WellFormed(r) && r.rows == t.rows
    ensures ColumnNamed(r, name) == Some(column)
    ensures name in t.names ==> r.names == t.names
    ensures name !in t.names ==> r.names == t.names + [name]
    ensures forall j :: 0 <= j < |t.names| && t.names[j] != name ==> r.columns[j] == t.columns[j]
  {
    var k := IndexOf(t.names, name);
    if k.Some? then
      var r := Table(t.names, t.columns[k.value := column], t.rows);
      assert forall j :: 0 <= j < |r.names| && r.names[j] == name ==> j == k.value;
      r
    else
      var r := Table(t.names + [name], t.columns + [column], t.rows);
      assert forall j :: 0 <= j < |r.names| && r.names[j] == name ==> j == |t.names|;
      r
  }

  /** The table after line 23: the derived column added to it. */
  function Derive(t: Table): (r: Result<Table, ProcessError>)
    requires WellFormed(t)
    ensures r.Success? ==> WellFormed(r.value) && r.value.rows == t.rows
    ensures r.Success? ==>
      RoomsPerHousehold(t).Success? && ColumnNamed(r.value, DerivedColumn) == Some(RoomsPerHousehold(t).value)
    ensures r.Failure? ==> RoomsPerHousehold(t) == Failure(r.error)
    ensures r.Success? ==>
      && |t.names| <= |r.value.names| && r.value.names[..|t.names|] == t.names
      && (forall j :: 0 <= j < |t.names| && t.names[j] != DerivedColumn ==> r.value.columns[j] == t.columns[j])
  {
    var column := RoomsPerHousehold(t);
    if column.Failure? then Failure(column.error)
    else
      var r := WithColumn(t, DerivedColumn, column.value);
      assert r.names[..|t.names|] == t.names;
      Success(r)
  }

  /** Looking up any other label gives the same answer before and after the derivation. */
  lemma DeriveKeepsColumn(t: Table, name: string)
    requires WellFormed(t) && Derive(t).Success? && name != DerivedColumn
    ensures ColumnNamed(Derive(t).value, name) == ColumnNamed(t, name)
  {
  }

  // -------------------------------------------------------------- the frame

  /** The data frame the job changes in place. */
  class DataFrame {
    var names: seq<string>
    var columns: seq<seq<real>>
    var rows: nat

    function Snapshot(): Table
      reads this
    {
      Table(names, columns, rows)
    }

    ghost predicate Valid()
      reads this
    {
      WellFormed(Snapshot())
    }

    constructor (t: Table)
      requires WellFormed(t)
      ensures Valid() && Snapshot() == t
    {
      names, columns, rows := t.names, t.columns, t.rows;
    }

    /** The `for col in df.columns` loop: each column in turn, capped against its own values. */
    method CapOutliers()
      requires Valid()
      modifies this
      ensures Valid()
      ensures Snapshot() == CapAll(old(Snapshot()))
    {
      var j := 0;
      while j < |columns|
        invariant 0 <= j <= |columns| == |old(columns)|
        invariant names == old(names) && rows == old(rows)
        invariant forall k :: 0 <= k < j ==> columns[k] == CapColumn(names[k], old(columns)[k])
        invariant forall k :: j <= k < |columns| ==> columns[k] == old(columns)[k]
        invariant Valid()
      {
        if !IsGeographic(names[j]) && rows > 0 {
          var cap := Percentile.Quantile(columns[j], CapQuantile);
          columns := columns[j := Percentile.Clip(columns[j], cap)];
        }
        j := j + 1;
      }
      assert columns == CapAll(old(Snapshot())).columns;
    }

    /** Line 23: the derived column, stored under its name; on an error the frame is left as it was. */
    method AddRoomsPerHousehold() returns (error: Option<ProcessError>)
      requires Valid()
      modifies this
      ensures Valid()
      ensures error.None? <==> Derive(old(Snapshot())).Success?
      ensures error.None? ==> Snapshot() == Derive(old(Snapshot())).value
      ensures error.Some? ==> error.value == Derive(old(Snapshot())).error && Snapshot() == old(Snapshot())
    {
      var derived := RoomsPerHousehold(Snapshot());
      if derived.Failure? {
        return Some(derived.error);
      }
      var k := IndexOf(names, DerivedColumn);
      if k.Some? {
        columns := columns[k.value := derived.value];
      } else {
        names := names + [DerivedColumn];
        columns := columns + [derived.value];
      }
      error := None;
    }
  }

  // ------------------------------------------------------------ selection

  /** The wanted names the table does not have, in order. */
  function Missing(t: Table, wanted: seq<string>): (r: seq<string>)
    ensures forall n :: n in r <==> n in wanted && n !in t.names
  {
    if wanted == [] then []
    else (if wanted[0] in t.names then [] else [wanted[0]]) + Missing(t, wanted[1..])
  }

  function FeatureColumn(t: Table, j: nat): (r: seq<real>)
    requires WellFormed(t) && j < |FeatureContract.Features| && FeatureContract.Features[j] in t.names
    ensures |r| == t.rows && ColumnNamed(t, FeatureContract.Features[j]) == Some(r)
  {
    ColumnNamed(t, FeatureContract.Features[j]).value
  }

  /** `X = df[feature_cols]` and `y = df["MedHouseVal"]`. */
  function SelectFeatures(t: Table): (r: Result<(Table, seq<real>), ProcessError>)
    requires WellFormed(t)
    ensures r.Success? <==> Missing(t, FeatureContract.Features) == [] && TargetColumn in t.names
    ensures r.Success? ==>
      var (x, y) := r.value;
      && x.names == FeatureContract.Features && WellFormed(x) && x.rows == t.rows
      && (forall j :: 0 <= j < |x.names| ==> ColumnNamed(t, x.names[j]) == Some(x.columns[j]))
      && ColumnNamed(t, TargetColumn) == Some(y) && |y| == t.rows
    ensures Missing(t, FeatureContract.Features) != [] ==>
      r == Failure(MissingColumns(Missing(t, FeatureContract.Features)))
    ensures Missing(t, FeatureContract.Features) == [] && TargetColumn !in t.names ==>
      r == Failure(MissingColumn(TargetColumn))
  {
    var missing := Missing(t, FeatureContract.Features);
    if missing != [] then Failure(MissingColumns(missing))
    else
      var target := ColumnNamed(t, TargetColumn);
      if target.None? then Failure(MissingColumn(TargetColumn))
      else
        FeatureContract.FeaturesDistinct();
        var n := |FeatureContract.Features|;
        var x := Table(FeatureContract.Features, seq(n, j requires 0 <= j < n => FeatureColumn(t, j)), t.rows);
        Success((x, target.value))
  }

  // ---------------------------------------------------------------- split

  /** `ceil(0.2 * n)`, the size of the test share. */
  function TestCount(n: nat): (c: nat)
    ensures n as real * TestSize <= c as real < n as real * TestSize + 1.0
  {
    var x := n as real * TestSize;
    -((-x).Floor)
  }

  /** `floor(0.8 * n)`, the size of the train share. */
  function TrainCount(n: nat): (c: nat)
    ensures c as real <= n as real * (1.0 - TestSize) < c as real + 1.0
  {
    (n as real * (1.0 - TestSize)).Floor
  }

  /** The two shares take every row, and the train share is empty only for fewer than two rows. */
  lemma CountsPartition(n: nat)
    ensures TestCount(n) + TrainCount(n) == n
    ensures TrainCount(n) == 0 <==> n < 2
    ensures n > 0 ==> TestCount(n) > 0
  {
    var x := n as real * TestSize;
    var c := -((-x).Floor);
    assert c as real - 1.0 < x <= c as real;
    assert (n - c) as real <= n as real * (1.0 - TestSize) < (n - c) as real + 1.0;
  }

  function Range(n: nat): (r: seq<nat>)
    ensures |r| == n
  {
    if n == 0 then [] else Range(n - 1) + [n - 1]
  }

  lemma {:induction false} RangeCounts(n: nat, x: nat)
    ensures multiset(Range(n))[x] == if x < n then 1 else 0
  {
    if n > 0 {
      var last: nat := n - 1;
      RangeCounts(last, x);
      assert multiset(Range(n)) == multiset(Range(last)) + multiset{last};
    }
  }

  /** The row numbers 0 .. n - 1, each exactly once, in some order. */
  predicate IsPermutation(perm: seq<nat>, n: nat)
  {
    multiset(perm) == multiset(Range(n))
  }

  lemma PermutationRows(perm: seq<nat>, n: nat)
    requires IsPermutation(perm, n)
    ensures |perm| == n && forall i :: 0 <= i < |perm| ==> perm[i] < n
  {
    assert |multiset(perm)| == |multiset(Range(n))|;
    forall i | 0 <= i < |perm|
      ensures perm[i] < n
    {
      assert perm[i] in multiset(perm);
      RangeCounts(n, perm[i]);
    }
  }

  /** The test rows are the first `TestCount(n)` of the permutation, the train rows the rest. */
  function SplitRows(n: nat, perm: seq<nat>): (r: Result<(seq<nat>, seq<nat>), ProcessError>)
    requires IsPermutation(perm, n)
    ensures r.Failure? <==> n < 2
  {
    CountsPartition(n);
    PermutationRows(perm, n);
    if TrainCount(n) == 0 then Failure(EmptyTrainSet(n))
    else Success((perm[TestCount(n)..], perm[..TestCount(n)]))
  }

  /**
   * Train and test are disjoint, together hold every row exactly once, and
   * the test share has `ceil(0.2 * n)` rows.
   */
  lemma SplitPartitions(n: nat, perm: seq<nat>)
    requires IsPermutation(perm, n) && SplitRows(n, perm).Success?
    ensures var (train, test) := SplitRows(n, perm).value;
      && |test| == TestCount(n) && |train| == TrainCount(n)
      && (forall row: nat :: row in train ==> row !in test)
      && (forall row: nat :: row in train || row in test <==> row < n)
      && (forall row: nat :: row < n ==> multiset(train + test)[row] == 1)
  {
    var (train, test) := SplitRows(n, perm).value;
    CountsPartition(n);
    PermutationRows(perm, n);
    assert perm == test + train;
    assert multiset(train + test) == multiset(perm);
    forall row: nat
      ensures multiset(train)[row] + multiset(test)[row] == if row < n then 1 else 0
    {
      RangeCounts(n, row);
      assert multiset(perm)[row] == multiset(test)[row] + multiset(train)[row];
      assert multiset(train + test)[row] == multiset(perm)[row];
    }
    forall row | row in train
      ensures row !in test
    {
      assert multiset(train)[row] >= 1;
    }
    forall row: nat
      ensures row in train || row in test <==> row < n
    {
      assert row in train <==> multiset(train)[row] > 0;
      assert row in test <==> multiset(test)[row] > 0;
    }
  }

  // --------------------------------------------------------------- output

  datatype Outputs = Outputs(train: Table, test: Table)

  /** `pd.concat([X_part, y_part], axis=1)` for the given rows. */
  function Assemble(x: Table, y: seq<real>, rows: seq<nat>): (r: Table)
    requires WellFormed(x) && |y| == x.rows && TargetColumn !in x.names
    requires forall i :: 0 <= i < |rows| ==> rows[i] < x.rows
    ensures r.names == x.names + [TargetColumn] && r.rows == |rows| && WellFormed(r)
    ensures forall j, i :: 0 <= j < |x.columns| && 0 <= i < |rows| ==> r.columns[j][i] == x.columns[j][rows[i]]
    ensures forall i :: 0 <= i < |rows| ==> r.columns[|x.columns|][i] == y[rows[i]]
  {
    var m := |x.columns|;
    var names := x.names + [TargetColumn];
    var columns := seq(m + 1, j requires 0 <= j <= m => Pick(if j < m then x.columns[j] else y, rows));
    assert forall j :: 0 <= j < m ==> names[j] == x.names[j] && names[j] in x.names;
    assert columns[m] == Pick(y, rows);
    Table(names, columns, |rows|)
  }

  /** Selection, split and assembly, on the derived table. */
  function Finish(t: Table, perm: seq<nat>): (r: Result<Outputs, ProcessError>)
    requires WellFormed(t) && IsPermutation(perm, t.rows)
    ensures r.Success? <==> SelectFeatures(t).Success? && t.rows >= 2
    ensures SelectFeatures(t).Failure? ==> r == Failure(SelectFeatures(t).error)
    ensures SelectFeatures(t).Success? && t.rows < 2 ==> r == Failure(EmptyTrainSet(t.rows))
    ensures r.Success? ==>
      && r.value.train.names == OutputColumns && r.value.test.names == OutputColumns
      && WellFormed(r.value.train) && WellFormed(r.value.test)
      && r.value.test.rows == TestCount(t.rows) && r.value.train.rows == TrainCount(t.rows)
  {
    var selected := SelectFeatures(t);
    if selected.Failure? then Failure(selected.error)
    else
      var split := SplitRows(t.rows, perm);
      if split.Failure? then Failure(split.error)
      else
        var (x, y) := selected.value;
        var (train, test) := split.value;
        PermutationRows(perm, t.rows);
        Success(Outputs(Assemble(x, y, train), Assemble(x, y, test)))
  }

  /** The whole job, on the table read from the input CSV. */
  function Preprocess(t: Table, perm: seq<nat>): (r: Result<Outputs, ProcessError>)
    requires WellFormed(t) && IsPermutation(perm, t.rows)
    ensures r.Success? <==>
      Derive(CapAll(t)).Success? && SelectFeatures(Derive(CapAll(t)).value).Success? && t.rows >= 2
    ensures Derive(CapAll(t)).Failure? ==> r == Failure(Derive(CapAll(t)).error)
    ensures Derive(CapAll(t)).Success? && SelectFeatures(Derive(CapAll(t)).value).Failure? ==>
      r == Failure(SelectFeatures(Derive(CapAll(t)).value).error)
    ensures Derive(CapAll(t)).Success? && SelectFeatures(Derive(CapAll(t)).value).Success? && t.rows < 2 ==>
      r == Failure(EmptyTrainSet(t.rows))
  {
    var derived := Derive(CapAll(t));
    if derived.Failure? then Failure(derived.error) else Finish(derived.value, perm)
  }

  /** The job's steps in the source's order, on the frame it changes. */
  method ProcessJob(df: DataFrame, perm: seq<nat>) returns (r: Result<Outputs, ProcessError>)
    requires df.Valid() && IsPermutation(perm, df.rows)
    modifies df
    ensures df.Valid()
    ensures Derive(CapAll(old(df.Snapshot()))).Success? ==> df.Snapshot() == Derive(CapAll(old(df.Snapshot()))).value
    ensures Derive(CapAll(old(df.Snapshot()))).Failure? ==> df.Snapshot() == CapAll(old(df.Snapshot()))
    ensures r == Preprocess(old(df.Snapshot()), perm)
  {
    df.CapOutliers();
    var error := df.AddRoomsPerHousehold();
    if error.Some? {
      return Failure(error.value);
    }
    r := Finish(df.Snapshot(), perm);
  }

  /**
   * Both output tables have the nine features followed by `MedHouseVal`,
   * the test table `ceil(0.2 * n)` rows and the train table the others.
   */
  lemma OutputShape(t: Table, perm: seq<nat>)
    requires WellFormed(t) && IsPermutation(perm, t.rows) && Preprocess(t, perm).Success?
    ensures var out := Preprocess(t, perm).value;
      && out.train.names == OutputColumns && out.test.names == OutputColumns
      && WellFormed(out.train) && WellFormed(out.test)
      && out.test.rows == TestCount(t.rows) && out.train.rows == TrainCount(t.rows)
      && out.train.rows + out.test.rows == t.rows
  {
    var derived := Derive(CapAll(t)).value;
    SplitPartitions(derived.rows, perm);
    CountsPartition(t.rows);
  }

  /** Each test row of `Finish` holds the table's features and target at the permuted row. */
  lemma FinishTestRows(t: Table, perm: seq<nat>, i: nat)
    requires WellFormed(t) && IsPermutation(perm, t.rows) && Finish(t, perm).Success?
    requires i < Finish(t, perm).value.test.rows
    ensures i < |perm| && perm[i] < t.rows
    ensures var test := Finish(t, perm).value.test;
      && (forall j :: 0 <= j < |FeatureContract.Features| ==>
            test.columns[j][i] == ColumnNamed(t, FeatureContract.Features[j]).value[perm[i]])
      && test.columns[|FeatureContract.Features|][i] == ColumnNamed(t, TargetColumn).value[perm[i]]
  {
    var (x, y) := SelectFeatures(t).value;
    var (train, test) := SplitRows(t.rows, perm).value;
    CountsPartition(t.rows);
    PermutationRows(perm, t.rows);
    assert test == perm[..TestCount(t.rows)];
    assert Finish(t, perm).value.test == Assemble(x, y, test);
  }

  /** Each train row of `Finish` holds the table's features and target at the permuted row after the test share. */
  lemma FinishTrainRows(t: Table, perm: seq<nat>, i: nat)
    requires WellFormed(t) && IsPermutation(perm, t.rows) && Finish(t, perm).Success?
    requires i < Finish(t, perm).value.train.rows
    ensures TestCount(t.rows) + i < |perm| && perm[TestCount(t.rows) + i] < t.rows
    ensures var train := Finish(t, perm).value.train;
      var row := perm[TestCount(t.rows) + i];
      && (forall j :: 0 <= j < |FeatureContract.Features| ==>
            train.columns[j][i] == ColumnNamed(t, FeatureContract.Features[j]).value[row])
      && train.columns[|FeatureContract.Features|][i] == ColumnNamed(t, TargetColumn).value[row]
  {
    var (x, y) := SelectFeatures(t).value;
    var (train, test) := SplitRows(t.rows, perm).value;
    CountsPartition(t.rows);
    PermutationRows(perm, t.rows);
    assert train == perm[TestCount(t.rows)..];
    assert Finish(t, perm).value.train == Assemble(x, y, train);
  }

  /**
   * Every value in the test table is the derived table's value for the test
   * row the permutation put there, and RoomsPerHousehold is computed from the
   * capped TotalRooms and Households, after capping, so it is not capped itself.
   */
  lemma TestRowsComeFromDerivedTable(t: Table, perm: seq<nat>, i: nat)
    requires WellFormed(t) && IsPermutation(perm, t.rows) && Preprocess(t, perm).Success?
    requires i < Preprocess(t, perm).value.test.rows
    ensures var capped := CapAll(t);
      var derived := Derive(capped).value;
      var test := Preprocess(t, perm).value.test;
      && i < |perm| && perm[i] < t.rows
      && (forall j :: 0 <= j < |FeatureContract.Features| ==>
            test.columns[j][i] == ColumnNamed(derived, FeatureContract.Features[j]).value[perm[i]])
      && test.columns[9][i] == ColumnNamed(derived, TargetColumn).value[perm[i]]
      && test.columns[8][i] ==
           ColumnNamed(capped, TotalRooms).value[perm[i]] / ColumnNamed(capped, Households).value[perm[i]]
  {
    var capped := CapAll(t);
    var derived := Derive(capped).value;
    assert Preprocess(t, perm) == Finish(derived, perm);
    FinishTestRows(derived, perm, i);
    assert FeatureContract.Features[8] == DerivedColumn;
    assert ColumnNamed(derived, DerivedColumn) == Some(RoomsPerHousehold(capped).value);
  }

  /**
   * The eight base features of a test row are the capped table's values at
   * the permuted row: the derivation touched none of them.
   */
  lemma TestRowsKeepCappedBaseColumns(t: Table, perm: seq<nat>, i: nat)
    requires WellFormed(t) && IsPermutation(perm, t.rows) && Preprocess(t, perm).Success?
    requires i < Preprocess(t, perm).value.test.rows
    ensures i < |perm| && perm[i] < t.rows
    ensures var capped := CapAll(t);
      var test := Preprocess(t, perm).value.test;
      && (forall j :: 0 <= j < 8 ==> FeatureContract.Features[j] in capped.names)
      && (forall j :: 0 <= j < 8 ==>
            test.columns[j][i] == ColumnNamed(capped, FeatureContract.Features[j]).value[perm[i]])
  {
    var capped := CapAll(t);
    var derived := Derive(capped).value;
    assert Preprocess(t, perm) == Finish(derived, perm);
    var test := Finish(derived, perm).value.test;
    assert SelectFeatures(derived).Success?;
    FinishTestRows(derived, perm, i);
    DeriveKeepsBaseColumns(capped);
    forall j | 0 <= j < 8
      ensures FeatureContract.Features[j] in capped.names
      ensures test.columns[j][i] == ColumnNamed(capped, FeatureContract.Features[j]).value[perm[i]]
    {
      assert FeatureContract.Features[j] in FeatureContract.Features;
      assert ColumnNamed(derived, FeatureContract.Features[j]).Some?;
    }
  }

  /** The derivation leaves the eight base features and the target as they were. */
  lemma DeriveKeepsBaseColumns(t: Table)
    requires WellFormed(t) && Derive(t).Success?
    ensures forall j :: 0 <= j < 8 ==>
      ColumnNamed(Derive(t).value, FeatureContract.Features[j]) == ColumnNamed(t, FeatureContract.Features[j])
    ensures ColumnNamed(Derive(t).value, TargetColumn) == ColumnNamed(t, TargetColumn)
  {
    FeatureContract.FeaturesDistinct();
    forall j | 0 <= j < 8
      ensures ColumnNamed(Derive(t).value, FeatureContract.Features[j]) == ColumnNamed(t, FeatureContract.Features[j])
    {
      assert FeatureContract.Features[j] != FeatureContract.Features[8];
      DeriveKeepsColumn(t, FeatureContract.Features[j]);
    }
    DeriveKeepsColumn(t, TargetColumn);
  }
}
