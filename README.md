# Laughter classifier data pipeline, modelled in Dafny

`scripts/convnet_laughter_classify.py` trains a small convolutional network
that separates laughter clips (files under a `samples` directory) from all
other clips. It also runs the trained network over a folder of `.wav` files.
This project models the plain-Python and numpy logic around the network:

- turning file paths into labels (`labeltext2labelid`, `extract_labels`);
- forcing clips to a fixed length (`shape_sound_clip`);
- one-hot encoding (`one_hot_encode`);
- reading the manifest of training files;
- the 95 % / 5 % train/test split;
- the sliding batch offset and the evaluate-and-checkpoint schedule of the training loop;
- the tensor layout `extract_features` builds from each spectrogram;
- the text side of `apply`: `toText` and the file stem of each path.

Modules, one file each:

- `Wrappers` holds the `Option` type used where Python raises.
- `Config` holds the script's constants: an empty dataset location, batch size 120, 1950 iterations, 221184 samples, 60 bands, 433 frames, 2 labels, 2 channels.
- `Text` models Python's `str.split` with a one-character separator, and `join`.
- `Labels`, `ClipShape`, `OneHot`, `Manifest`, `Partition`, `Batching`, `FeatureLayout` and `Inference` follow the script's helpers in order.

Python semantics are written out where they differ from Dafny's:

- `%` takes the sign of the divisor (`Batching.PyMod`).
- Slices accept negative and out-of-range bounds (`Batching.PySlice`).
- `split` always returns at least one piece.
- Indexing `[-2]` of a one-piece list raises `IndexError`.
- `x % 0` raises `ZeroDivisionError`.

The two errors are modelled as result values (`Labels.Labelling.IndexError`, `Batching.Run.ZeroDivisionError`).

The loops of the source stay loops:

- the label loop is a `while` in `Labels.ExtractLabels`;
- the split loop is a `for` in `Partition.SplitTrainTest`;
- the training loop is a `for` in `Batching.RunSchedule`;
- the feature loops are in `FeatureLayout.FlattenAll` and `FeatureLayout.ExtractFeatures`;
- the numpy matrix that `one_hot_encode` fills is an `array2` in `OneHot.OneHotEncode`.

Each is proved against a specification function. That function's own properties are proved as lemmas.

The docstring of `shape_sound_clip` (line 64) says it gives clips a
constant length. The code does so only for clips that are not longer than
required (see Findings). The manifest parse of lines 188-192 always drops
the last line. The intent inferred here is that a file list whose last line
lacks a newline still names a file (see Findings).

## Model

| member | source | states |
|---|---|---|
| Labels.LabelId | scripts/convnet_laughter_classify.py:46-58 | the label is below `num_labels`, and it is 0 exactly when the category is `"samples"` |
| Labels.ParentDir | scripts/convnet_laughter_classify.py:82 | `f.split('/')[-2]` is defined exactly when the path contains a '/', and the segment it returns contains no '/' |
| Labels.ParentDirIsEnclosingDirectory | scripts/convnet_laughter_classify.py:82 | the segment is the directory directly holding the file: the path is that name, a '/' and a '/'-free last segment, and the name starts the path or follows a '/' |
| Labels.ExtractLabels | scripts/convnet_laughter_classify.py:78-84 | raises IndexError exactly when some path has no '/', and at the first such path; otherwise gives one label per path, in order, each below 2 and 0 exactly when the parent directory is `samples` |
| Text.Split | scripts/convnet_laughter_classify.py:190 | `s.split(sep)` has one more piece than `s` has separators, and no piece contains the separator |
| Text.JoinSplit | scripts/convnet_laughter_classify.py:190 | joining the pieces of a split with the separator gives back the string |
| Text.SplitJoin | scripts/convnet_laughter_classify.py:190 | splitting the join of separator-free pieces gives back the pieces |
| Text.FirstPiece | scripts/convnet_laughter_classify.py:280 | the first piece of a split is the prefix up to the first separator |
| Text.LastPiece | scripts/convnet_laughter_classify.py:280 | the last piece of a split is the suffix after the last separator |
| ClipShape.ShapeSoundClip | scripts/convnet_laughter_classify.py:62-76 | a clip no longer than required is returned padded with zeros to the required length; a longer clip is cut to a prefix of `len - required` samples |
| ClipShape.RequiredLengthIff | scripts/convnet_laughter_classify.py:66-72 | the result has the required length exactly when the clip is not longer than required or exactly twice as long |
| ClipShape.TrimCounterexample | scripts/convnet_laughter_classify.py:71 | a clip of 5 samples shaped to 3 comes out with 2 samples |
| ClipShape.NotIdempotent | scripts/convnet_laughter_classify.py:62-76 | shaping a shaped clip can change it again (10 samples give 7, then 4) |
| ClipShape.ScriptTrim | scripts/convnet_laughter_classify.py:62-76 | at the script's 221184 samples, a clip of 300000 samples comes out with 78816, and the intended function keeps 221184 |
| ClipShape.ShapeSoundClipFixed | scripts/convnet_laughter_classify.py:62-76 | the intended shaping: the result always has the required length, holding the clip's sample where there is one and zero after it |
| ClipShape.FixedIdempotent | scripts/convnet_laughter_classify.py:62-76 | shaping with the intended function twice is shaping once |
| ClipShape.FixedAgrees | scripts/convnet_laughter_classify.py:62-76 | the intended function agrees with the code on clips not longer than required, and keeps the prefix of a longer clip |
| OneHot.OneHotEncode | scripts/convnet_laughter_classify.py:122-132 | a fresh matrix of `len(labels)` rows and `num_labels` columns, holding 1 at column `labels[i]` of row i and 0 elsewhere |
| OneHot.OneHot | scripts/convnet_laughter_classify.py:129-130 | the reference matrix: one row per label, each of `num_labels` entries, with 1 at column `labels[i]` and 0 in every other column |
| OneHot.RowsSumToOne | scripts/convnet_laughter_classify.py:129-130 | every row has `num_labels` entries, and they sum to 1 |
| OneHot.ArgMax | scripts/convnet_laughter_classify.py:182 | `argmax` of a row is the first index of a largest entry |
| OneHot.ArgMaxDecodes | scripts/convnet_laughter_classify.py:182 | argmax of a one-hot row gives the label back, so the accuracy metric compares labels |
| Manifest.ParseManifest | scripts/convnet_laughter_classify.py:188-192 | one entry per newline of the file; each entry is the dataset location followed by a line free of newlines |
| Manifest.Prefixed | scripts/convnet_laughter_classify.py:192 | entry i is the dataset location followed by line i |
| Manifest.LinesAreJoined | scripts/convnet_laughter_classify.py:190 | a file of newline-terminated lines followed by an unterminated tail splits into those lines and the tail |
| Manifest.ParseLines | scripts/convnet_laughter_classify.py:188-192 | round trip: a file whose every line ends with a newline gives back its lines, in order, behind the dataset location |
| Manifest.ScriptManifest | scripts/convnet_laughter_classify.py:188-192 | with the script's empty `DATASET_LOCATION`, the entries of a newline-terminated manifest are its lines, unchanged |
| Manifest.LastLineLost | scripts/convnet_laughter_classify.py:190-191 | a last line without a trailing newline is silently dropped |
| Manifest.ParseManifestFixed | scripts/convnet_laughter_classify.py:188-192 | the intended parse: the last piece is dropped only when it is empty; every entry is the location followed by a newline-free line |
| Manifest.ParseFixedKeepsLastLine | scripts/convnet_laughter_classify.py:188-192 | the intended parse keeps every line of the file, terminated or not |
| Manifest.FixedAgreesOnTerminatedFiles | scripts/convnet_laughter_classify.py:188-192 | on an empty or newline-terminated file the intended parse equals the code's |
| Partition.ToTrain | scripts/convnet_laughter_classify.py:204 | file i goes to the training set exactly when its draw is below 0.95 |
| Partition.Select | scripts/convnet_laughter_classify.py:202-207 | the files one side receives number at most the list's and are all files of the list |
| Partition.SelectLength | scripts/convnet_laughter_classify.py:202-207 | each side has as many files as the mask sends there, and the two counts add up to the number of files |
| Partition.MergeSelect | scripts/convnet_laughter_classify.py:202-207 | interleaving the training and test lists in draw order gives back the shuffled list: every file lands on exactly one side, and each side keeps the order |
| Partition.SelectMultiset | scripts/convnet_laughter_classify.py:202-207 | the two sides together hold exactly the files of the list, with multiplicity |
| Partition.ShuffledSplitCoversManifest | scripts/convnet_laughter_classify.py:194-207 | whatever permutation the seeded shuffle picks, train and test together are the manifest entries, each as often as it is listed |
| Partition.SplitTrainTest | scripts/convnet_laughter_classify.py:202-207 | the loop's `train` and `test` are the files whose draws are below and not below 0.95, in order, and together they have as many files as the list |
| Batching.PyMod | scripts/convnet_laughter_classify.py:223 | Python's `%`: the remainder lies between 0 and the divisor, on the divisor's side, and `a == b * (a // b) + a % b` |
| Batching.SliceBound | scripts/convnet_laughter_classify.py:224-225 | a slice bound resolves to an index in `[0, n]`: an in-range bound to itself, a bound past the end to `n`, a negative bound `i` to `n + i`, and one below `-n` to 0 |
| Batching.PySlice | scripts/convnet_laughter_classify.py:224-225 | a slice is never longer than the list, and an in-range slice is the sub-sequence |
| Batching.Offset | scripts/convnet_laughter_classify.py:223 | the offset raises ZeroDivisionError exactly when the training set has `batch_size` files; it lies in `[0, len - batch_size)` for a larger set and in `(len - batch_size, 0]` for a smaller one; it is 0 at iteration 0 |
| Batching.FullBatch | scripts/convnet_laughter_classify.py:223-225 | with more files than the batch size, every batch is the in-bounds slice of exactly `batch_size` files and never reaches the last training file |
| Batching.ShortBatch | scripts/convnet_laughter_classify.py:223-225 | with fewer files than the batch size, the offset is at most 0, and every batch is a short suffix of the training set: all of it at offset 0 |
| Batching.OffsetWraps | scripts/convnet_laughter_classify.py:223 | with 1000 files and the script's batches of 120, iteration 1 starts at 120 and iteration 8 wraps to 80 |
| Batching.StepAt | scripts/convnet_laughter_classify.py:223-227 | iteration `itr` checkpoints exactly when `itr` is divisible by 10; its batch is never longer than the training set, and with more files than the batch size it is the `batch_size` files starting at the in-bounds offset |
| Batching.CheckpointIterations | scripts/convnet_laughter_classify.py:227 | every saved iteration is below n and divisible by 10 |
| Batching.CheckpointSchedule | scripts/convnet_laughter_classify.py:227-229 | checkpoints are saved on exactly the iterations below n divisible by 10, in increasing order, ceil(n / 10) of them |
| Batching.TrainingCheckpoints | scripts/convnet_laughter_classify.py:222-229 | the script's 1950 iterations save 195 checkpoints, the last at iteration 1940 |
| Batching.RunSchedule | scripts/convnet_laughter_classify.py:222-229 | the loop raises ZeroDivisionError exactly when it runs at least once on `batch_size` training files; otherwise iteration k takes the batch at `Offset(k)`, and the saved iterations are the checkpoint schedule |
| FeatureLayout.Transpose | scripts/convnet_laughter_classify.py:103 | `m.T` has the swapped shape, and entry (j, i) is entry (i, j) of `m` |
| FeatureLayout.Flatten | scripts/convnet_laughter_classify.py:103 | `flatten` of r rows of c entries has c * r entries |
| FeatureLayout.FlattenAt | scripts/convnet_laughter_classify.py:103 | row-major order: entry (i, j) sits at `i * cols + j` |
| FeatureLayout.Reshape | scripts/convnet_laughter_classify.py:113 | `reshape(rows, cols)` of a vector of rows * cols entries is a rows x cols matrix |
| FeatureLayout.Layout | scripts/convnet_laughter_classify.py:103-113 | the channel-0 matrix the code builds from a bands x frames spectrogram (transpose, flatten, reshape) is again a bands x frames matrix; LayoutAt and LayoutInverse give its entries |
| FeatureLayout.LayoutAt | scripts/convnet_laughter_classify.py:103-113 | entry (i, j) of the channel-0 matrix is the spectrogram's band `k mod bands` of frame `k div bands`, where `k = i * frames + j` |
| FeatureLayout.LayoutInverse | scripts/convnet_laughter_classify.py:103-113 | band b of frame t lands at cell (`k div frames`, `k mod frames`), where `k = t * bands + b`, so no spectrogram value is lost |
| FeatureLayout.LayoutInjective | scripts/convnet_laughter_classify.py:103-113 | distinct cells of the channel-0 matrix read distinct spectrogram cells |
| FeatureLayout.LayoutSwapsFirstCells | scripts/convnet_laughter_classify.py:103-113 | with at least two bands and two frames, cell (0, 1) holds band 1 of frame 0 |
| FeatureLayout.LayoutScrambles | scripts/convnet_laughter_classify.py:103-113 | on a spectrogram with distinct entries, the channel-0 matrix differs from the spectrogram: rows are not bands and columns are not frames |
| FeatureLayout.ScriptLayoutScrambles | scripts/convnet_laughter_classify.py:103-113 | the scramble happens at the script's 60 bands and 433 frames |
| FeatureLayout.LayoutFixed | scripts/convnet_laughter_classify.py:103-113 | the transpose-free reference layout is a bands x frames matrix |
| FeatureLayout.LayoutFixedIsIdentity | scripts/convnet_laughter_classify.py:103-113 | without the transpose, the flatten-and-reshape gives back the spectrogram |
| FeatureLayout.Stack | scripts/convnet_laughter_classify.py:115-118 | stacking two matrices gives a bands x frames tensor with `num_channels` = 2 values per cell |
| FeatureLayout.Channel | scripts/convnet_laughter_classify.py:118 | `x[:, :, c]` is a bands x frames matrix |
| FeatureLayout.ChannelOfStack | scripts/convnet_laughter_classify.py:115-118 | reading channel 0 or 1 of a stack gives back the matrix stacked there |
| FeatureLayout.DeltaChannel | scripts/convnet_laughter_classify.py:117-118 | clip n's channel 1 becomes the delta of its channel 0, and no other clip changes |
| FeatureLayout.FlattenAll | scripts/convnet_laughter_classify.py:92-107 | one transposed and flattened spectrogram per file, in order, each of bands * frames values |
| FeatureLayout.ExtractFeatures | scripts/convnet_laughter_classify.py:92-120 | one tensor per file, in order: channel 0 is the layout of the file's spectrogram, and channel 1 is the delta of that layout |
| Inference.ToText | scripts/convnet_laughter_classify.py:248-252 | the text is "laughter" exactly when the class is 0, and "-" exactly when it is not |
| Inference.TextMatchesTrainingLabel | scripts/convnet_laughter_classify.py:248-252 | a file labelled from the `samples` directory, and only such a file, is reported as "laughter" |
| Inference.Basename | scripts/convnet_laughter_classify.py:280 | the name `f.split('\\')[-1].split('.')[0]` contains neither '.' nor '\\' and is no longer than the path |
| Inference.BasenameIsStem | scripts/convnet_laughter_classify.py:280 | the name is the path's last '\\'-segment up to its first '.': it is a prefix of that segment, which ends the path, and it contains neither '.' nor '\\' |
| Inference.Report | scripts/convnet_laughter_classify.py:281 | `zip` pairs each path's stem with its prediction's text, in order, and is as long as the shorter list; prediction 0 gives "laughter" and every other prediction "-" |

## Left out

- The TensorFlow graph, the session, the optimizer, the loss and the accuracy values are not modelled, because they are an external numerical library. So are `weight_variable`, `bias_variable`, `conv2d`, `apply_convolution` and `apply_max_pool`. `tf.argmax` is modelled only as `OneHot.ArgMax`.
- The Saver's retention (5 checkpoints, one per hour) and the checkpoint files are not modelled, because they are library I/O. `Batching.RunSchedule` records only which iterations save a checkpoint.
- Batching.RunSchedule: the evaluation on the test set and the training step of each iteration are not modelled. Only the offset, the batch slice and the checkpoint decision are.
- librosa (`load`, `melspectrogram`, `power_to_db`, `delta`) is not modelled. It is an external DSP library:
  - the spectrograms are inputs to `FeatureLayout.ExtractFeatures`;
  - the sample type of a clip is left abstract;
  - `delta` is a function parameter, assumed only to keep the bands x frames shape.
- FeatureLayout.ExtractFeatures: it does not model the shape error numpy would raise if a spectrogram were not bands x frames. After the trim finding, a long clip yields a wrong frame count. The method requires the bands x frames shape of every spectrogram.
- `random.seed(10)` and `random.shuffle` are modelled as an arbitrary permutation, in `Partition.ShuffledSplitCoversManifest`, because the generator's output is not part of the program's logic.
- Partition.SplitTrainTest: each reseeded `random.random()` draw is an input real, one per file, because the draws come from system entropy.
- The unused `np.random.rand(...) < 0.80` mask at line 196 is not modelled, because nothing reads it.
- Reading the manifest file, `os.walk` over the inference folder and the `.wav` filter are not modelled, because they are file-system I/O. `Manifest.ParseManifest` takes the file's contents as a string, and `Inference.Report` takes the paths.
- `print`, `cost_history` and the module-level call to `apply()` are not modelled, because they are output and script wiring.
- OneHot.OneHotEncode: requires every label below `num_labels`. numpy would raise IndexError otherwise, which the model does not represent. The labels the script passes come from `Labels.LabelId`, which are always 0 or 1.
- ClipShape.ShapeSoundClip: `required_length` is a natural number. The script only uses 221184, and a negative length is not modelled.
- OneHot.ArgMax: returns the first index of a largest entry. TensorFlow does not document which index `tf.argmax` returns on ties; this does not matter for one-hot rows, which have a single maximum.
- Inference.Report: predictions are natural numbers, as `tf.argmax` returns class indices.

## Findings

| source | as written | input that shows it | evidently intended | confidence | as-written member | corrected member |
|---|---|---|---|---|---|---|
| scripts/convnet_laughter_classify.py:71 | a clip longer than required becomes `sound_clip[:-difference]`, its first `len - required` samples | a clip of 5 samples with required length 3 comes out with 2 samples | keep the first `required_length` samples, so every clip has the required length | not executed; high | ClipShape.TrimCounterexample | ClipShape.ShapeSoundClipFixed |
| scripts/convnet_laughter_classify.py:191 | `filenames[:-1]` always drops the last piece of the split | the manifest `"a/x.wav\nb/y.wav"` (no final newline) yields only `a/x.wav` | drop the last piece only when it is the empty string after a final newline | not executed; medium | Manifest.LastLineLost | Manifest.ParseFixedKeepsLastLine |
