/** The mini-batch schedule of the training loop
    (scripts/convnet_laughter_classify.py, lines 222-229): the sliding
    offset, the batch slice, and the iterations that evaluate on the test
    set and save a checkpoint. The network step itself is not modelled. */
module Batching {
  import Config
  import opened Wrappers

  /** Python's `a // b`: the quotient rounded towards negative infinity. */
  function FloorDiv(a: int, b: int): int
    requires b != 0
  {
    if b < 0 && a % b != 0 then a / b - 1 else a / b
  }

  /** Python's `a % b`: unlike Dafny's `%`, the remainder takes the sign of
      the divisor, so that `a == b * (a // b) + a % b`. */
  function PyMod(a: int, b: int): (r: int)
    requires b != 0
    ensures b > 0 ==> 0 <= r < b
    ensures b < 0 ==> b < r <= 0
    ensures a == b * FloorDiv(a, b) + r
  {
    var e := a % b;
    assert a == b * (a / b) + e;
    if b < 0 && e != 0 then
      assert b * (a / b - 1) == b * (a / b) - b;
      e + b
    else e
  }

  /** How Python resolves one bound of a slice: a negative bound counts from
      the end, and the result is clamped to [0, n]. */
  function SliceBound(i: int, n: nat): (k: nat)
    ensures k <= n
    ensures 0 <= i <= n ==> k == i
    ensures i > n ==> k == n
    ensures i < 0 && 0 <= i + n ==> k == i + n
    ensures i + n < 0 ==> k == 0
  {
    if i < 0 then (if i + n < 0 then 0 else i + n)
    else if i > n then n
    else i
  }

  /** Python's `s[start:stop]`. */
  function PySlice<T>(s: seq<T>, start: int, stop: int): (r: seq<T>)
    ensures |r| <= |s|
    ensures 0 <= start <= stop <= |s| ==> r == s[start..stop]
  {
    var a, b := SliceBound(start, |s|), SliceBound(stop, |s|);
    if a < b then s[a..b] else []
  }

  /** `offset = (itr * batch_size) % (len(train) - batch_size)`, or None
      where Python raises ZeroDivisionError. */
  function Offset(itr: nat, batchSize: nat, trainSize: nat): (offset: Option<int>)
    ensures offset.None? <==> trainSize == batchSize
    ensures trainSize > batchSize ==> 0 <= offset.value < trainSize - batchSize
    ensures trainSize < batchSize ==> trainSize - batchSize < offset.value <= 0
    ensures itr == 0 && trainSize != batchSize ==> offset == Some(0)
  {
    if trainSize == batchSize then None
    else Some(PyMod(itr * batchSize, trainSize - batchSize))
  }

  /** With more training files than the batch size, every batch is the
      in-bounds slice train[offset..offset + batchSize] of exactly batchSize
      files, and it never reaches the last training file. */
  lemma FullBatch<T>(train: seq<T>, batchSize: nat, itr: nat)
    requires |train| > batchSize
    ensures var o := Offset(itr, batchSize, |train|).value;
      0 <= o && o + batchSize < |train| &&
      PySlice(train, o, o + batchSize) == train[o..o + batchSize] &&
      |PySlice(train, o, o + batchSize)| == batchSize
  {
  }

  /** With fewer training files than the batch size the offset is zero or
      negative and every batch is short: a negative start counts from the
      end, and the stop lies past the end, so the batch is a suffix of the
      training set, all of it at offset 0. */
  lemma ShortBatch<T>(train: seq<T>, batchSize: nat, itr: nat)
    requires |train| < batchSize
    ensures var o := Offset(itr, batchSize, |train|).value;
      var batch := PySlice(train, o, o + batchSize);
      o <= 0 && |batch| < batchSize &&
      batch == train[|train| - |batch|..] &&
      (o == 0 ==> batch == train)
  {
    var o := Offset(itr, batchSize, |train|).value;
    assert SliceBound(o + batchSize, |train|) == |train|;
  }

  /** The offsets wrap: with 1000 files and batches of 120, iteration 1
      starts at 120 and iteration 8 at 960 mod 880 = 80. */
  lemma OffsetWraps()
    ensures Offset(1, Config.BatchSize, 1000) == Some(120)
    ensures Offset(8, Config.BatchSize, 1000) == Some(80)
  {
  }

  /** One iteration of the loop: its batch and whether it evaluates on the
      test set and saves a checkpoint. */
  datatype Iteration<T> = Iteration(itr: nat, batch: seq<T>, checkpoint: bool)

  datatype Run<T> = Ran(steps: seq<Iteration<T>>, saved: seq<nat>) | ZeroDivisionError

  /** What iteration `itr` does, once the offset is defined. */
  function StepAt<T>(train: seq<T>, batchSize: nat, itr: nat): (step: Iteration<T>)
    requires |train| != batchSize
    ensures step.itr == itr
    ensures step.checkpoint <==> itr % Config.CheckpointEvery == 0
    ensures |step.batch| <= |train|
    ensures |train| > batchSize ==>
      var o := Offset(itr, batchSize, |train|).value;
      0 <= o && o + batchSize < |train| && step.batch == train[o..o + batchSize]
  {
    var o := Offset(itr, batchSize, |train|).value;
    Iteration(itr, PySlice(train, o, o + batchSize), itr % Config.CheckpointEvery == 0)
  }

  /** The iterations below `n` that save a checkpoint, in order. */
  function CheckpointIterations(n: nat): (saved: seq<nat>)
    ensures forall i :: 0 <= i < |saved| ==> saved[i] < n && saved[i] % Config.CheckpointEvery == 0
  {
    if n == 0 then []
    else CheckpointIterations(n - 1) + (if (n - 1) % Config.CheckpointEvery == 0 then [n - 1] else [])
  }

  /** Checkpoints are saved exactly on the iterations divisible by 10, in
      increasing order, and there are ceil(n / 10) of them. */
  lemma {:induction false} CheckpointSchedule(n: nat)
    ensures forall k: nat :: k in CheckpointIterations(n) <==> k < n && k % 10 == 0
    ensures forall i, j :: 0 <= i < j < |CheckpointIterations(n)| ==>
      CheckpointIterations(n)[i] < CheckpointIterations(n)[j]
    ensures |CheckpointIterations(n)| == (n + 9) / 10
  {
    if n > 0 {
      CheckpointSchedule(n - 1);
      var prev := CheckpointIterations(n - 1);
      var cur := CheckpointIterations(n);
      assert cur == prev + (if (n - 1) % 10 == 0 then [n - 1] else []);
      forall k: nat ensures k in cur <==> k < n && k % 10 == 0 {
        assert k in prev <==> k < n - 1 && k % 10 == 0;
        assert k in cur <==> k in prev || ((n - 1) % 10 == 0 && k == n - 1);
      }
      if (n - 1) % 10 == 0 {
        assert cur == prev + [n - 1];
        forall i | 0 <= i < |prev| ensures prev[i] < n - 1 {
          assert prev[i] in prev;
        }
      }
    }
  }

  /** The script's 1950 iterations save 195 checkpoints, the last at 1940. */
  lemma TrainingCheckpoints()
    ensures |CheckpointIterations(Config.TrainingIterations)| == 195
    ensures 1940 in CheckpointIterations(Config.TrainingIterations)
    ensures 1950 !in CheckpointIterations(Config.TrainingIterations)
  {
    CheckpointSchedule(Config.TrainingIterations);
  }

  /** The training loop's schedule: for each iteration, the offset and the
      batch, and on every tenth iteration a checkpoint. The first iteration
      raises ZeroDivisionError when the training set has exactly batchSize
      files. */
  method RunSchedule<T>(train: seq<T>, batchSize: nat, iterations: nat) returns (r: Run<T>)
    ensures r.ZeroDivisionError? <==> iterations > 0 && |train| == batchSize
    ensures r.Ran? ==> |train| != batchSize || iterations == 0
    ensures r.Ran? ==> |r.steps| == iterations
    ensures r.Ran? ==> forall k :: 0 <= k < iterations ==>
      |train| != batchSize && r.steps[k] == StepAt(train, batchSize, k)
    ensures r.Ran? ==> r.saved == CheckpointIterations(iterations)
  {
    var steps: seq<Iteration<T>> := [];
    var saved: seq<nat> := [];
    for itr := 0 to iterations
      invariant itr > 0 ==> |train| != batchSize
      invariant |steps| == itr
      invariant forall k :: 0 <= k < itr ==> |train| != batchSize && steps[k] == StepAt(train, batchSize, k)
      invariant saved == CheckpointIterations(itr)
    {
      if |train| == batchSize {
        return ZeroDivisionError;
      }
      var offset := PyMod(itr * batchSize, |train| - batchSize);
      var batch := PySlice(train, offset, offset + batchSize);
      var checkpoint := itr % Config.CheckpointEvery == 0;
      if checkpoint {
        saved := saved + [itr];
      }
      steps := steps + [Iteration(itr, batch, checkpoint)];
    }
    return Ran(steps, saved);
  }
}
