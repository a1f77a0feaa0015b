/** `one_hot_encode`: label ids to rows of a zero matrix with a single 1. */
module OneHot {

  /** The matrix one_hot_encode fills, as rows: row i has a 1 in column
      labels[i] and 0 everywhere else. */
  function OneHot(labels: seq<nat>, numLabels: nat): (m: seq<seq<int>>)
    requires forall i :: 0 <= i < |labels| ==> labels[i] < numLabels
    ensures |m| == |labels|
    ensures forall i :: 0 <= i < |labels| ==>
      |m[i]| == numLabels && m[i][labels[i]] == 1 &&
      forall j :: 0 <= j < numLabels && j != labels[i] ==> m[i][j] == 0
  {
    seq(|labels|, i requires 0 <= i < |labels| =>
      seq(numLabels, j => if j == labels[i] then 1 else 0))
  }

  /** Sum of a row. */
  function Sum(row: seq<int>): int
  {
    if |row| == 0 then 0 else Sum(row[..|row| - 1]) + row[|row| - 1]
  }

  /** `tf.argmax` over one row: the first index holding a largest entry. */
  function ArgMax(row: seq<int>): (k: nat)
    requires |row| > 0
    ensures k < |row|
    ensures forall j :: 0 <= j < |row| ==> row[j] <= row[k]
    ensures forall j :: 0 <= j < k ==> row[j] < row[k]
  {
    if |row| == 1 then 0
    else
      var k := ArgMax(row[1..]);
      if row[0] >= row[k + 1] then 0 else k + 1
  }

  lemma {:induction false} IndicatorSum(n: nat, hot: nat)
    ensures Sum(seq(n, j => if j == hot then 1 else 0)) == if hot < n then 1 else 0
  {
    if n > 0 {
      IndicatorSum(n - 1, hot);
      var row := seq(n, j => if j == hot then 1 else 0);
      assert row[..n - 1] == seq(n - 1, j => if j == hot then 1 else 0);
    }
  }

  /** Every row of a one-hot matrix has width numLabels and sums to 1. */
  lemma RowsSumToOne(labels: seq<nat>, numLabels: nat, i: nat)
    requires forall k :: 0 <= k < |labels| ==> labels[k] < numLabels
    requires i < |labels|
    ensures |OneHot(labels, numLabels)| == |labels|
    ensures |OneHot(labels, numLabels)[i]| == numLabels
    ensures Sum(OneHot(labels, numLabels)[i]) == 1
  {
    IndicatorSum(numLabels, labels[i]);
    assert OneHot(labels, numLabels)[i] == seq(numLabels, j => if j == labels[i] then 1 else 0);
  }

  /** Decoding a one-hot row with argmax (as the accuracy metric does) gives
      the label back. */
  lemma ArgMaxDecodes(labels: seq<nat>, numLabels: nat, i: nat)
    requires forall k :: 0 <= k < |labels| ==> labels[k] < numLabels
    requires i < |labels|
    ensures ArgMax(OneHot(labels, numLabels)[i]) == labels[i]
  {
    var row := OneHot(labels, numLabels)[i];
    assert row[labels[i]] == 1;
  }

  /** `one_hot_encode(labels, numLabels)`: a zero matrix of |labels| rows
      and numLabels columns, then a 1 written at (i, labels[i]) for each i.
      numpy raises IndexError for a label >= numLabels; the labels the
      script passes are always 0 or 1. */
  method OneHotEncode(labels: seq<nat>, numLabels: nat) returns (m: array2<int>)
    requires forall i :: 0 <= i < |labels| ==> labels[i] < numLabels
    ensures fresh(m) && m.Length0 == |labels| && m.Length1 == numLabels
    ensures forall i, j :: 0 <= i < |labels| && 0 <= j < numLabels ==>
      m[i, j] == OneHot(labels, numLabels)[i][j]
  {
    m := new int[|labels|, numLabels]((i, j) => 0);
    var i := 0;
    while i < |labels|
      invariant 0 <= i <= |labels|
      invariant forall r, c :: 0 <= r < |labels| && 0 <= c < numLabels ==>
        m[r, c] == if r < i && c == labels[r] then 1 else 0
    {
      m[i, labels[i]] := 1;
      i := i + 1;
    }
  }
}
