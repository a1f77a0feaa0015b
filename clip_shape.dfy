/** `shape_sound_clip`: forcing a clip of samples to a fixed length. The
    samples are left abstract (type T); `zero` is the value numpy's
    `np.zeros` pads with. */
module ClipShape {
  import Config

  function Zeros<T>(n: nat, zero: T): (z: seq<T>)
    ensures |z| == n && forall i :: 0 <= i < n ==> z[i] == zero
  {
    seq(n, _ => zero)
  }

  /** `shape_sound_clip` as written: with `difference = requiredLength - len`,
      an exact clip is returned as is, a short clip is padded with zeros, and
      a long clip becomes `clip[:-difference]`, the first `len - requiredLength`
      samples. */
  function ShapeSoundClip<T>(clip: seq<T>, requiredLength: nat, zero: T): (r: seq<T>)
    ensures |clip| <= requiredLength ==>
      |r| == requiredLength && r[..|clip|] == clip &&
      forall i :: |clip| <= i < requiredLength ==> r[i] == zero
    ensures |clip| > requiredLength ==> |r| == |clip| - requiredLength && r <= clip
  {
    var difference := requiredLength - |clip|;
    if difference == 0 then clip
    else if difference < 0 then clip[..-difference]
    else clip + Zeros(difference, zero)
  }

  /** The as-written function yields the required length exactly when the
      clip is not longer than required, or is exactly twice as long. */
  lemma RequiredLengthIff<T>(clip: seq<T>, requiredLength: nat, zero: T)
    ensures |ShapeSoundClip(clip, requiredLength, zero)| == requiredLength
      <==> |clip| <= requiredLength || |clip| == 2 * requiredLength
  {
  }

  /** A clip of 5 samples shaped to 3 comes out with 2 samples. */
  lemma TrimCounterexample()
    ensures |ShapeSoundClip([0, 0, 0, 0, 0], 3, 0)| == 2
  {
  }

  /** Shaping twice is not shaping once: 10 samples shaped to 3 give 7, and
      shaping those 7 again gives 4. */
  lemma NotIdempotent()
    ensures var once := ShapeSoundClip(Zeros(10, 0), 3, 0);
      |once| == 7 && |ShapeSoundClip(once, 3, 0)| == 4
  {
  }

  /** At the script's length of 221184 samples, a clip of 300000 samples
      comes out with 78816 of them; the intended function keeps 221184. */
  lemma ScriptTrim()
    ensures |ShapeSoundClip(Zeros(300000, 0), Config.MaxAudioLength, 0)| == 78816
    ensures |ShapeSoundClipFixed(Zeros(300000, 0), Config.MaxAudioLength, 0)| == Config.MaxAudioLength
  {
  }

  /** The evidently intended behaviour: keep the first `requiredLength`
      samples of a long clip, so the result always has the required length. */
  function ShapeSoundClipFixed<T>(clip: seq<T>, requiredLength: nat, zero: T): (r: seq<T>)
    ensures |r| == requiredLength
    ensures forall i :: 0 <= i < requiredLength ==> r[i] == if i < |clip| then clip[i] else zero
  {
    if |clip| >= requiredLength then clip[..requiredLength]
    else clip + Zeros(requiredLength - |clip|, zero)
  }

  /** Shaping a shaped clip changes nothing. */
  lemma FixedIdempotent<T>(clip: seq<T>, requiredLength: nat, zero: T)
    ensures var once := ShapeSoundClipFixed(clip, requiredLength, zero);
      ShapeSoundClipFixed(once, requiredLength, zero) == once
  {
    var once := ShapeSoundClipFixed(clip, requiredLength, zero);
    assert once[..requiredLength] == once;
  }

  /** The correction changes only the trim branch: on clips not longer than
      required both functions agree, and a longer clip keeps its prefix. */
  lemma FixedAgrees<T>(clip: seq<T>, requiredLength: nat, zero: T)
    ensures |clip| <= requiredLength ==>
      ShapeSoundClipFixed(clip, requiredLength, zero) == ShapeSoundClip(clip, requiredLength, zero)
    ensures |clip| >= requiredLength ==>
      ShapeSoundClipFixed(clip, requiredLength, zero) == clip[..requiredLength]
  {
    if |clip| <= requiredLength {
      var a := ShapeSoundClipFixed(clip, requiredLength, zero);
      var b := ShapeSoundClip(clip, requiredLength, zero);
      assert forall i :: 0 <= i < |clip| ==> b[i] == b[..|clip|][i];
      assert a == b;
    }
  }
}
