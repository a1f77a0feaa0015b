/** The train/test partition in `train` (scripts/convnet_laughter_classify.py,
    lines 194-207). The seeded `random.shuffle` is any permutation of the
    manifest entries; each reseeded `random.random()` draw is given as an
    input, one per file, and a file goes to the training set when its draw
    is below 0.95. */
module Partition {

  const TrainFraction: real := 0.95

  /** Which files the draws send to the training set. */
  function ToTrain(draws: seq<real>): (mask: seq<bool>)
    ensures |mask| == |draws|
    ensures forall i :: 0 <= i < |draws| ==> (mask[i] <==> draws[i] < TrainFraction)
  {
    seq(|draws|, i requires 0 <= i < |draws| => draws[i] < TrainFraction)
  }

  /** The files whose mask entry equals `side`, in their original order. */
  function Select<T>(xs: seq<T>, mask: seq<bool>, side: bool): (chosen: seq<T>)
    requires |mask| == |xs|
    ensures |chosen| <= |xs|
    ensures forall i :: 0 <= i < |chosen| ==> chosen[i] in xs
  {
    if |xs| == 0 then []
    else
      Select(xs[..|xs| - 1], mask[..|xs| - 1], side) +
      (if mask[|xs| - 1] == side then [xs[|xs| - 1]] else [])
  }

  /** Number of entries of `mask` equal to `side`. */
  function Occurrences(mask: seq<bool>, side: bool): nat
  {
    if |mask| == 0 then 0
    else Occurrences(mask[..|mask| - 1], side) + (if mask[|mask| - 1] == side then 1 else 0)
  }

  lemma {:induction false} SelectLength<T>(xs: seq<T>, mask: seq<bool>, side: bool)
    requires |mask| == |xs|
    ensures |Select(xs, mask, side)| == Occurrences(mask, side)
    ensures Occurrences(mask, true) + Occurrences(mask, false) == |xs|
  {
    if |xs| > 0 {
      SelectLength(xs[..|xs| - 1], mask[..|xs| - 1], side);
    }
  }

  /** Interleaves a training and a test list back in the order of `mask`:
      the inverse of selecting both sides. */
  function Merge<T>(train: seq<T>, test: seq<T>, mask: seq<bool>): seq<T>
    requires |train| == Occurrences(mask, true) && |test| == Occurrences(mask, false)
  {
    if |mask| == 0 then []
    else
      var front := mask[..|mask| - 1];
      if mask[|mask| - 1] then Merge(train[..|train| - 1], test, front) + [train[|train| - 1]]
      else Merge(train, test[..|test| - 1], front) + [test[|test| - 1]]
  }

  /** Selecting after one more draw: the file joins the side it drew. */
  lemma SelectStep<T>(xs: seq<T>, mask: seq<bool>, x: T, b: bool, side: bool)
    requires |mask| == |xs|
    ensures Select(xs + [x], mask + [b], side) == Select(xs, mask, side) + (if b == side then [x] else [])
  {
    assert (xs + [x])[..|xs|] == xs;
    assert (mask + [b])[..|xs|] == mask;
  }

  /** Merging after one more draw appends that file. */
  lemma MergeAppend<T>(train: seq<T>, test: seq<T>, mask: seq<bool>, x: T, side: bool)
    requires |train| == Occurrences(mask, true) && |test| == Occurrences(mask, false)
    ensures side ==> Merge(train + [x], test, mask + [true]) == Merge(train, test, mask) + [x]
    ensures !side ==> Merge(train, test + [x], mask + [false]) == Merge(train, test, mask) + [x]
  {
    assert (mask + [side])[..|mask|] == mask;
    assert (train + [x])[..|train|] == train;
    assert (test + [x])[..|test|] == test;
  }

  /** Merging the two sides gives back the list they were selected from:
      every file lands on exactly one side, and each side keeps the order. */
  lemma {:induction false} MergeSelect<T>(xs: seq<T>, mask: seq<bool>)
    requires |mask| == |xs|
    ensures |Select(xs, mask, true)| == Occurrences(mask, true)
    ensures |Select(xs, mask, false)| == Occurrences(mask, false)
    ensures Merge(Select(xs, mask, true), Select(xs, mask, false), mask) == xs
  {
    SelectLength(xs, mask, true);
    SelectLength(xs, mask, false);
    if |xs| > 0 {
      var n := |xs|;
      var xs', front, x, b := xs[..n - 1], mask[..n - 1], xs[n - 1], mask[n - 1];
      assert xs == xs' + [x] && mask == front + [b];
      MergeSelect(xs', front);
      var train', test' := Select(xs', front, true), Select(xs', front, false);
      SelectStep(xs', front, x, b, true);
      SelectStep(xs', front, x, b, false);
      MergeAppend(train', test', front, x, b);
      if b {
        assert Select(xs, mask, true) == train' + [x];
        assert Select(xs, mask, false) == test';
        calc {
          Merge(Select(xs, mask, true), Select(xs, mask, false), mask);
          Merge(train' + [x], test', front + [true]);
          Merge(train', test', front) + [x];
        }
      } else {
        assert Select(xs, mask, true) == train';
        assert Select(xs, mask, false) == test' + [x];
        calc {
          Merge(Select(xs, mask, true), Select(xs, mask, false), mask);
          Merge(train', test' + [x], front + [false]);
          Merge(train', test', front) + [x];
        }
      }
    }
  }

  /** The two sides together hold exactly the files of the list. */
  lemma {:induction false} SelectMultiset<T>(xs: seq<T>, mask: seq<bool>)
    requires |mask| == |xs|
    ensures multiset(Select(xs, mask, true)) + multiset(Select(xs, mask, false)) == multiset(xs)
  {
    if |xs| > 0 {
      var n := |xs|;
      SelectMultiset(xs[..n - 1], mask[..n - 1]);
      assert xs == xs[..n - 1] + [xs[n - 1]];
    }
  }

  /** After any shuffle of the manifest entries, the training and test sets
      together are the manifest entries, each as often as it is listed. */
  lemma ShuffledSplitCoversManifest<T>(entries: seq<T>, shuffled: seq<T>, draws: seq<real>)
    requires multiset(shuffled) == multiset(entries)
    requires |draws| == |shuffled|
    ensures var mask := ToTrain(draws);
      multiset(Select(shuffled, mask, true)) + multiset(Select(shuffled, mask, false)) == multiset(entries)
  {
    SelectMultiset(shuffled, ToTrain(draws));
  }

  /** The loop of lines 202-207: each file, in order, is appended to `train`
      when its draw is below 0.95 and to `test` otherwise. */
  method SplitTrainTest<T>(filenames: seq<T>, draws: seq<real>) returns (train: seq<T>, test: seq<T>)
    requires |draws| == |filenames|
    ensures train == Select(filenames, ToTrain(draws), true)
    ensures test == Select(filenames, ToTrain(draws), false)
    ensures |train| + |test| == |filenames|
  {
    var mask := ToTrain(draws);
    train, test := [], [];
    for i := 0 to |filenames|
      invariant train == Select(filenames[..i], mask[..i], true)
      invariant test == Select(filenames[..i], mask[..i], false)
    {
      assert filenames[..i + 1][..i] == filenames[..i] && mask[..i + 1][..i] == mask[..i];
      if draws[i] < TrainFraction {
        train := train + [filenames[i]];
      } else {
        test := test + [filenames[i]];
      }
    }
    assert filenames[..|filenames|] == filenames && mask[..|filenames|] == mask;
    SelectLength(filenames, mask, true);
    SelectLength(filenames, mask, false);
  }
}
