/** Per-column arithmetic means of the training rows (`calculateFeatureMeans`). */
module FeatureMeans {

  /** Every row has exactly `width` entries, as the dataset loader produces them. */
  predicate Uniform(rows: seq<seq<real>>, width: nat)
  {
    forall i :: 0 <= i < |rows| ==> |rows[i]| == width
  }

  /** Every row is wide enough to have a column `j`. */
  predicate HasColumn(rows: seq<seq<real>>, j: nat)
  {
    forall i :: 0 <= i < |rows| ==> j < |rows[i]|
  }

  /** The sum of column `j`, accumulated from the first row to the last. */
  function ColumnSum(rows: seq<seq<real>>, j: nat): real
    requires HasColumn(rows, j)
  {
    if |rows| == 0 then 0.0
    else ColumnSum(rows[..|rows| - 1], j) + rows[|rows| - 1][j]
  }

  /** Reference definition of the means: the empty table has no means; otherwise
      entry `j` is the sum of column `j` divided by the number of rows. */
  function Means(rows: seq<seq<real>>): seq<real>
    requires |rows| > 0 ==> Uniform(rows, |rows[0]|)
  {
    if |rows| == 0 then []
    else seq(|rows[0]|, j requires 0 <= j < |rows[0]| => ColumnSum(rows, j) / |rows| as real)
  }

  /** The accumulation loop of the source: one running sum per column of the
      first row, every row added entry by entry, then each sum divided by the
      row count. */
  method CalculateFeatureMeans(features: seq<seq<real>>) returns (means: seq<real>)
    requires |features| > 0 ==> Uniform(features, |features[0]|)
    ensures |features| == 0 ==> means == []
    ensures |features| > 0 ==> |means| == |features[0]|
    ensures forall j :: 0 <= j < |means| ==> means[j] == ColumnSum(features, j) / |features| as real
    ensures means == Means(features)
  {
    if |features| == 0 {
      return [];
    }
    var n := |features[0]|;
    var sums := seq(n, _ => 0.0);
    var i := 0;
    while i < |features|
      invariant 0 <= i <= |features|
      invariant |sums| == n
      invariant forall j :: 0 <= j < n ==> sums[j] == ColumnSum(features[..i], j)
    {
      var row := features[i];
      assert features[..i + 1][..i] == features[..i];
      var k := 0;
      while k < |row|
        invariant 0 <= k <= |row| == n
        invariant |sums| == n
        invariant forall j :: 0 <= j < k ==> sums[j] == ColumnSum(features[..i + 1], j)
        invariant forall j :: k <= j < n ==> sums[j] == ColumnSum(features[..i], j)
      {
        sums := sums[k := sums[k] + row[k]];
        k := k + 1;
      }
      i := i + 1;
    }
    assert features[..|features|] == features;
    means := seq(n, j requires 0 <= j < n => sums[j] / |features| as real);
  }

  /** The means of a single row are that row itself. */
  lemma MeansOfSingleRow(row: seq<real>)
    ensures Means([row]) == row
  {
    forall j | 0 <= j < |row|
      ensures Means([row])[j] == row[j]
    {
      assert [row][..0] == [];
      assert ColumnSum([row], j) == ColumnSum([], j) + row[j];
    }
  }

  /** If column `j` stays within `[lo, hi]` then so does its sum scaled by the
      row count. */
  lemma {:induction false} ColumnSumBounds(rows: seq<seq<real>>, j: nat, lo: real, hi: real)
    requires HasColumn(rows, j)
    requires forall i :: 0 <= i < |rows| ==> lo <= rows[i][j] <= hi
    ensures lo * |rows| as real <= ColumnSum(rows, j) <= hi * |rows| as real
  {
    if |rows| > 0 {
      var init := rows[..|rows| - 1];
      assert forall i :: 0 <= i < |init| ==> init[i] == rows[i];
      ColumnSumBounds(init, j, lo, hi);
    }
  }

  /** Every mean lies between the smallest and the largest value of its column. */
  lemma MeanWithinColumnRange(rows: seq<seq<real>>, j: nat, lo: real, hi: real)
    requires |rows| > 0 && Uniform(rows, |rows[0]|)
    requires j < |rows[0]|
    requires forall i :: 0 <= i < |rows| ==> lo <= rows[i][j] <= hi
    ensures lo <= Means(rows)[j] <= hi
  {
    ColumnSumBounds(rows, j, lo, hi);
    var n := |rows| as real;
    assert Means(rows)[j] == ColumnSum(rows, j) / n;
    assert lo * n / n == lo && hi * n / n == hi;
  }
}
