/** Reading the manifest in `train` (scripts/convnet_laughter_classify.py,
    lines 188-192): the file's contents are split on '\n', the last piece is
    discarded, and the dataset location is put in front of every line. */
module Manifest {
  import opened Text
  import Config

  /** The manifest entries as written: one per newline in `contents`. */
  function ParseManifest(contents: string, location: string): (entries: seq<string>)
    ensures |entries| == Count(contents, '\n')
    ensures forall i :: 0 <= i < |entries| ==>
      |location| <= |entries[i]| && entries[i][..|location|] == location &&
      '\n' !in entries[i][|location|..]
  {
    var lines := Split(contents, '\n');
    Prefixed(lines[..|lines| - 1], location)
  }

  /** `[location + l for l in lines]`. */
  function Prefixed(lines: seq<string>, location: string): (entries: seq<string>)
    ensures |entries| == |lines|
    ensures forall i :: 0 <= i < |lines| ==>
      entries[i] == location + lines[i] && entries[i][|location|..] == lines[i]
  {
    seq(|lines|, i requires 0 <= i < |lines| => location + lines[i])
  }

  /** A manifest file holding `lines`, each ended by a newline. */
  function Lines(lines: seq<string>): string
  {
    if |lines| == 0 then "" else lines[0] + "\n" + Lines(lines[1..])
  }

  predicate OneLineEach(lines: seq<string>)
  {
    forall i :: 0 <= i < |lines| ==> '\n' !in lines[i]
  }

  /** A newline-terminated file, followed by an unterminated `tail`, is the
      join of its lines and the tail. */
  lemma {:induction false} LinesAreJoined(lines: seq<string>, tail: string)
    requires OneLineEach(lines) && '\n' !in tail
    ensures Lines(lines) + tail == Join(lines + [tail], '\n')
    ensures Split(Lines(lines) + tail, '\n') == lines + [tail]
  {
    if |lines| > 0 {
      LinesAreJoined(lines[1..], tail);
      assert (lines + [tail])[1..] == lines[1..] + [tail];
    }
    assert OneLineEach(lines + [tail]);
    SplitJoin(lines + [tail], '\n');
  }

  /** Round trip: a file whose every line ends with a newline yields its
      lines, in order, behind the dataset location. */
  lemma ParseLines(lines: seq<string>, location: string)
    requires OneLineEach(lines)
    ensures ParseManifest(Lines(lines), location) == Prefixed(lines, location)
  {
    LinesAreJoined(lines, "");
    assert Lines(lines) + "" == Lines(lines);
    assert (lines + [""])[..|lines|] == lines;
  }

  /** With the script's empty DATASET_LOCATION, the entries of a
      newline-terminated manifest are its lines, unchanged. */
  lemma ScriptManifest(lines: seq<string>)
    requires OneLineEach(lines)
    ensures ParseManifest(Lines(lines), Config.DatasetLocation) == lines
  {
    ParseLines(lines, Config.DatasetLocation);
    var entries := Prefixed(lines, Config.DatasetLocation);
    forall i | 0 <= i < |lines|
      ensures entries[i] == lines[i]
    {
      assert entries[i][|Config.DatasetLocation|..] == entries[i];
    }
  }

  /** A last line without a trailing newline is lost. */
  lemma LastLineLost(lines: seq<string>, tail: string, location: string)
    requires OneLineEach(lines) && '\n' !in tail
    ensures ParseManifest(Lines(lines) + tail, location) == Prefixed(lines, location)
  {
    LinesAreJoined(lines, tail);
    assert (lines + [tail])[..|lines|] == lines;
  }

  /** The evidently intended parse: drop the last piece only when it is
      empty, that is, when the file ends with a newline (or is empty). */
  function ParseManifestFixed(contents: string, location: string): (entries: seq<string>)
    ensures forall i :: 0 <= i < |entries| ==>
      |location| <= |entries[i]| && entries[i][..|location|] == location &&
      '\n' !in entries[i][|location|..]
  {
    var lines := Split(contents, '\n');
    if Last(lines) == "" then Prefixed(lines[..|lines| - 1], location)
    else Prefixed(lines, location)
  }

  /** Every line of the file is kept, whether or not the last one ends with
      a newline. */
  lemma ParseFixedKeepsLastLine(lines: seq<string>, tail: string, location: string)
    requires OneLineEach(lines) && '\n' !in tail
    ensures ParseManifestFixed(Lines(lines) + tail, location) ==
      if tail == "" then Prefixed(lines, location) else Prefixed(lines + [tail], location)
  {
    LinesAreJoined(lines, tail);
    assert (lines + [tail])[..|lines|] == lines;
  }

  /** On a file that ends with a newline, the correction parses the same as
      the code as written. */
  lemma FixedAgreesOnTerminatedFiles(contents: string, location: string)
    requires contents == [] || Last(contents) == '\n'
    ensures ParseManifestFixed(contents, location) == ParseManifest(contents, location)
  {
    JoinSplit(contents, '\n');
    if contents != [] {
      LastPiece(contents, '\n');
    }
  }
}
