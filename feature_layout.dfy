/** The tensor layout built by `extract_features`
    (scripts/convnet_laughter_classify.py, lines 92-120). Each clip's
    log-mel spectrogram is an abstract bands x frames matrix; line 103
    transposes and flattens it, line 113 reshapes the flat vectors to
    bands x frames, line 115 adds an all-zero second channel, and lines
    117-118 overwrite that channel with the delta of the first. */
module FeatureLayout {
  import Config

  type Matrix<T> = seq<seq<T>>

  /** A clip's features: rows x cols cells, each holding one value per channel. */
  type Tensor<T> = seq<seq<seq<T>>>

  predicate IsMatrix<T>(m: Matrix<T>, rows: nat, cols: nat)
  {
    |m| == rows && forall i :: 0 <= i < rows ==> |m[i]| == cols
  }

  predicate IsTensor<T>(x: Tensor<T>, rows: nat, cols: nat, depth: nat)
  {
    |x| == rows && forall i :: 0 <= i < rows ==>
      |x[i]| == cols && forall j :: 0 <= j < cols ==> |x[i][j]| == depth
  }

  // Index arithmetic

  lemma {:induction false} MulMonotone(x: nat, y: nat, z: nat)
    requires y <= z
    ensures x * y <= x * z
  {
    if y < z {
      MulMonotone(x, y, z - 1);
      assert x * z == x * (z - 1) + x;
    }
  }

  /** Row-major index (i, j) of a rows x cols matrix lies in the flat vector. */
  lemma IndexInRange(i: nat, j: nat, rows: nat, cols: nat)
    requires i < rows && j < cols
    ensures i * cols + j < rows * cols
  {
    MulMonotone(cols, i + 1, rows);
    assert cols * (i + 1) == cols * i + cols;
  }

  /** Division recovers the row and column of a row-major index. */
  lemma DivModOf(q: nat, r: nat, d: nat)
    requires r < d
    ensures (q * d + r) / d == q && (q * d + r) % d == r
  {
    var k := q * d + r;
    var q' := k / d;
    assert k == d * q' + k % d;
    if q' > q {
      assert d * (q + 1) == d * q + d;
      MulMonotone(d, q + 1, q');
    } else if q' < q {
      assert d * (q' + 1) == d * q' + d;
      MulMonotone(d, q' + 1, q);
    }
  }

  lemma QuotientBound(k: nat, d: nat, n: nat)
    requires k < n * d
    ensures k / d < n
  {
    if k / d >= n {
      MulMonotone(d, n, k / d);
    }
  }

  // numpy operations on one clip

  /** `m.T` */
  function Transpose<T>(m: Matrix<T>, rows: nat, cols: nat): (t: Matrix<T>)
    requires IsMatrix(m, rows, cols)
    ensures IsMatrix(t, cols, rows)
    ensures forall j, i :: 0 <= j < cols && 0 <= i < rows ==> t[j][i] == m[i][j]
  {
    seq(cols, j requires 0 <= j < cols => seq(rows, i requires 0 <= i < rows => m[i][j]))
  }

  /** `m.flatten()`: the rows laid end to end. */
  function Flatten<T>(m: Matrix<T>, cols: nat): (flat: seq<T>)
    requires forall i :: 0 <= i < |m| ==> |m[i]| == cols
    ensures |flat| == cols * |m|
  {
    if |m| == 0 then [] else m[0] + Flatten(m[1..], cols)
  }

  /** Row-major order: cell (i, j) sits at i * cols + j of the flat vector. */
  lemma {:induction false} FlattenAt<T>(m: Matrix<T>, cols: nat, i: nat, j: nat)
    requires forall k :: 0 <= k < |m| ==> |m[k]| == cols
    requires i < |m| && j < cols
    ensures i * cols + j < |Flatten(m, cols)| && Flatten(m, cols)[i * cols + j] == m[i][j]
  {
    IndexInRange(i, j, |m|, cols);
    if i > 0 {
      FlattenAt(m[1..], cols, i - 1, j);
      assert i * cols + j == cols + ((i - 1) * cols + j);
    }
  }

  /** Entry (i, j) of `flat.reshape(rows, cols)`. */
  function FlatAt<T>(flat: seq<T>, rows: nat, cols: nat, i: nat, j: nat): T
    requires |flat| == rows * cols && i < rows && j < cols
  {
    IndexInRange(i, j, rows, cols);
    flat[i * cols + j]
  }

  /** `flat.reshape(rows, cols)` in numpy's row-major order. */
  function Reshape<T>(flat: seq<T>, rows: nat, cols: nat): (m: Matrix<T>)
    requires |flat| == rows * cols
    ensures IsMatrix(m, rows, cols)
  {
    seq(rows, i requires 0 <= i < rows =>
      seq(cols, j requires 0 <= j < cols => FlatAt(flat, rows, cols, i, j)))
  }

  /** The bands x frames matrix a spectrogram becomes, as written: transposed
      and flattened (line 103), then reshaped to bands x frames (line 113). */
  function Layout<T>(s: Matrix<T>, bands: nat, frames: nat): (l: Matrix<T>)
    requires IsMatrix(s, bands, frames)
    ensures IsMatrix(l, bands, frames)
  {
    Reshape(Flatten(Transpose(s, bands, frames), bands), bands, frames)
  }

  /** Entry (i, j) of the layout is the spectrogram's entry at band k mod
      bands and frame k div bands, where k = i * frames + j. */
  lemma LayoutAt<T>(s: Matrix<T>, bands: nat, frames: nat, i: nat, j: nat)
    requires IsMatrix(s, bands, frames)
    requires i < bands && j < frames
    ensures var k := i * frames + j;
      k % bands < bands && k / bands < frames &&
      Layout(s, bands, frames)[i][j] == s[k % bands][k / bands]
  {
    var k := i * frames + j;
    IndexInRange(i, j, bands, frames);
    QuotientBound(k, bands, frames);
    var t, b := k / bands, k % bands;
    assert k == t * bands + b;
    var tr := Transpose(s, bands, frames);
    FlattenAt(tr, bands, t, b);
  }

  /** Every spectrogram entry appears in the layout: band b of frame t lands
      at (k div frames, k mod frames), where k = t * bands + b. With LayoutAt
      this makes the index map a bijection on the bands * frames cells. */
  lemma LayoutInverse<T>(s: Matrix<T>, bands: nat, frames: nat, b: nat, t: nat)
    requires IsMatrix(s, bands, frames)
    requires b < bands && t < frames
    ensures var k := t * bands + b;
      k / frames < bands && k % frames < frames &&
      Layout(s, bands, frames)[k / frames][k % frames] == s[b][t]
  {
    var i, j := InverseIndex(bands, frames, b, t);
    LayoutAt(s, bands, frames, i, j);
  }

  /** The layout cell that reads band b of frame t. */
  lemma InverseIndex(bands: nat, frames: nat, b: nat, t: nat) returns (i: nat, j: nat)
    requires b < bands && t < frames
    ensures i == (t * bands + b) / frames && j == (t * bands + b) % frames
    ensures i < bands && j < frames && i * frames + j == t * bands + b
    ensures (i * frames + j) % bands == b && (i * frames + j) / bands == t
  {
    var k := t * bands + b;
    IndexInRange(t, b, frames, bands);
    QuotientBound(k, frames, bands);
    i, j := k / frames, k % frames;
    DivModOf(t, b, bands);
  }

  /** Distinct layout cells read distinct spectrogram cells. */
  lemma LayoutInjective(bands: nat, frames: nat, i: nat, j: nat, i': nat, j': nat)
    requires i < bands && j < frames && i' < bands && j' < frames
    requires (i * frames + j) % bands == (i' * frames + j') % bands
    requires (i * frames + j) / bands == (i' * frames + j') / bands
    ensures i == i' && j == j'
  {
    var k, k' := i * frames + j, i' * frames + j';
    assert k == bands * (k / bands) + k % bands;
    assert k' == bands * (k' / bands) + k' % bands;
    DivModOf(i, j, frames);
    DivModOf(i', j', frames);
  }

  /** The layout is not the spectrogram: whenever there are at least two
      bands and two frames, cell (0, 1) holds band 1 of frame 0. */
  lemma LayoutSwapsFirstCells<T>(s: Matrix<T>, bands: nat, frames: nat)
    requires IsMatrix(s, bands, frames) && bands >= 2 && frames >= 2
    ensures Layout(s, bands, frames)[0][1] == s[1][0]
  {
    LayoutAt(s, bands, frames, 0, 1);
  }

  /** A spectrogram whose every entry is its own row-major index. */
  function IndexMatrix(bands: nat, frames: nat): (m: Matrix<int>)
    ensures IsMatrix(m, bands, frames)
  {
    seq(bands, b => seq(frames, t => b * frames + t))
  }

  /** On a spectrogram with distinct entries the layout as written differs
      from the spectrogram: time and frequency are scrambled. */
  lemma LayoutScrambles(bands: nat, frames: nat)
    requires bands >= 2 && frames >= 2
    ensures Layout(IndexMatrix(bands, frames), bands, frames) != IndexMatrix(bands, frames)
  {
    var s := IndexMatrix(bands, frames);
    LayoutSwapsFirstCells(s, bands, frames);
    assert s[1][0] == frames && s[0][1] == 1;
  }

  /** The script's 60 x 433 spectrograms are scrambled too. */
  lemma ScriptLayoutScrambles()
    ensures var s := IndexMatrix(Config.Bands, Config.Frames);
      Layout(s, Config.Bands, Config.Frames) != s
  {
    LayoutScrambles(Config.Bands, Config.Frames);
  }

  /** The evidently intended layout: flatten without transposing, so that
      the reshape gives back the spectrogram. */
  function LayoutFixed<T>(s: Matrix<T>, bands: nat, frames: nat): (l: Matrix<T>)
    requires IsMatrix(s, bands, frames)
    ensures IsMatrix(l, bands, frames)
  {
    Reshape(Flatten(s, frames), bands, frames)
  }

  /** Without the transpose, the reshape is the identity. */
  lemma LayoutFixedIsIdentity<T>(s: Matrix<T>, bands: nat, frames: nat)
    requires IsMatrix(s, bands, frames)
    ensures LayoutFixed(s, bands, frames) == s
  {
    var l := LayoutFixed(s, bands, frames);
    forall i | 0 <= i < bands
      ensures l[i] == s[i]
    {
      forall j | 0 <= j < frames
        ensures l[i][j] == s[i][j]
      {
        FlattenAt(s, frames, i, j);
      }
    }
  }

  // The two channels

  /** Line 115 and the delta loop: channel 0 from `ch0`, channel 1 from `ch1`. */
  function Stack<T>(ch0: Matrix<T>, ch1: Matrix<T>, rows: nat, cols: nat): (x: Tensor<T>)
    requires IsMatrix(ch0, rows, cols) && IsMatrix(ch1, rows, cols)
    ensures IsTensor(x, rows, cols, Config.NumChannels)
  {
    seq(rows, i requires 0 <= i < rows =>
      seq(cols, j requires 0 <= j < cols => [ch0[i][j], ch1[i][j]]))
  }

  /** `x[:, :, c]` */
  function Channel<T>(x: Tensor<T>, rows: nat, cols: nat, c: nat): (m: Matrix<T>)
    requires IsTensor(x, rows, cols, Config.NumChannels) && c < Config.NumChannels
    ensures IsMatrix(m, rows, cols)
  {
    seq(rows, i requires 0 <= i < rows =>
      seq(cols, j requires 0 <= j < cols => x[i][j][c]))
  }

  function ZeroMatrix<T>(rows: nat, cols: nat, zero: T): (m: Matrix<T>)
    ensures IsMatrix(m, rows, cols)
  {
    seq(rows, _ => seq(cols, _ => zero))
  }

  /** Reading back a channel of stacked matrices gives the matrix back. */
  lemma ChannelOfStack<T>(ch0: Matrix<T>, ch1: Matrix<T>, rows: nat, cols: nat)
    requires IsMatrix(ch0, rows, cols) && IsMatrix(ch1, rows, cols)
    ensures Channel(Stack(ch0, ch1, rows, cols), rows, cols, 0) == ch0
    ensures Channel(Stack(ch0, ch1, rows, cols), rows, cols, 1) == ch1
  {
    var x := Stack(ch0, ch1, rows, cols);
    forall c | 0 <= c < 2
      ensures Channel(x, rows, cols, c) == if c == 0 then ch0 else ch1
    {
      var m := Channel(x, rows, cols, c);
      forall i | 0 <= i < rows
        ensures m[i] == (if c == 0 then ch0 else ch1)[i]
      {
      }
    }
  }

  /** Line 118 for clip n: `features[n, :, :, 1] = delta(features[n, :, :, 0])`. */
  method DeltaChannel<T>(features: array<Tensor<T>>, n: nat, l: Matrix<T>, zeros: Matrix<T>,
                         bands: nat, frames: nat, delta: Matrix<T> -> Matrix<T>)
    requires n < features.Length
    requires IsMatrix(l, bands, frames) && IsMatrix(zeros, bands, frames)
    requires IsMatrix(delta(l), bands, frames)
    requires features[n] == Stack(l, zeros, bands, frames)
    modifies features
    ensures features[n] == Stack(l, delta(l), bands, frames)
    ensures forall k :: 0 <= k < features.Length && k != n ==> features[k] == old(features[k])
  {
    var ch0 := Channel(features[n], bands, frames, 0);
    ChannelOfStack(l, zeros, bands, frames);
    features[n] := Stack(ch0, delta(ch0), bands, frames);
  }

  /** Lines 92-107: one transposed, flattened spectrogram per file, in order. */
  method FlattenAll<T>(specs: seq<Matrix<T>>, bands: nat, frames: nat) returns (logSpecgrams: seq<seq<T>>)
    requires forall n :: 0 <= n < |specs| ==> IsMatrix(specs[n], bands, frames)
    ensures |logSpecgrams| == |specs|
    ensures forall k :: 0 <= k < |specs| ==>
      |logSpecgrams[k]| == bands * frames &&
      logSpecgrams[k] == Flatten(Transpose(specs[k], bands, frames), bands)
  {
    logSpecgrams := [];
    for n := 0 to |specs|
      invariant |logSpecgrams| == n
      invariant forall k :: 0 <= k < n ==>
        logSpecgrams[k] == Flatten(Transpose(specs[k], bands, frames), bands)
    {
      logSpecgrams := logSpecgrams + [Flatten(Transpose(specs[n], bands, frames), bands)];
    }
  }

  /** `extract_features`, from the spectrograms on: `specs[n]` is the
      log-power mel spectrogram of file n (the DSP library's output) and
      `delta` is the library's delta transform. The result holds, for file
      n, the layout of its spectrogram in channel 0 and the delta of that
      layout in channel 1. */
  method ExtractFeatures<T>(specs: seq<Matrix<T>>, bands: nat, frames: nat, zero: T,
                            delta: Matrix<T> -> Matrix<T>)
    returns (features: array<Tensor<T>>)
    requires forall n :: 0 <= n < |specs| ==> IsMatrix(specs[n], bands, frames)
    requires forall m :: IsMatrix(m, bands, frames) ==> IsMatrix(delta(m), bands, frames)
    ensures fresh(features) && features.Length == |specs|
    ensures forall n :: 0 <= n < |specs| ==>
      var l := Layout(specs[n], bands, frames);
      features[n] == Stack(l, delta(l), bands, frames)
  {
    var logSpecgrams := FlattenAll(specs, bands, frames);
    // line 113: reshape each flat vector to bands x frames
    var layouts := seq(|specs|, k requires 0 <= k < |specs| =>
      Reshape(logSpecgrams[k], bands, frames));
    assert forall k :: 0 <= k < |specs| ==> layouts[k] == Layout(specs[k], bands, frames);
    // line 115: add an all-zero second channel
    var zeros := ZeroMatrix(bands, frames, zero);
    features := new Tensor<T>[|specs|](k requires 0 <= k < |specs| =>
      Stack(layouts[k], zeros, bands, frames));
    // lines 117-118: channel 1 of each clip becomes the delta of channel 0
    for n := 0 to features.Length
      invariant forall k :: 0 <= k < n ==>
        features[k] == Stack(layouts[k], delta(layouts[k]), bands, frames)
      invariant forall k :: n <= k < features.Length ==>
        features[k] == Stack(layouts[k], zeros, bands, frames)
    {
      DeltaChannel(features, n, layouts[n], zeros, bands, frames, delta);
    }
  }
}
