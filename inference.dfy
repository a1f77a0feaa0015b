/** The text side of `apply` (scripts/convnet_laughter_classify.py,
    lines 247-283): predicted class indices become text, and each input
    path becomes its file stem. */
module Inference {
  import opened Text
  import Labels
  import Config

  const LaughterText: string := "laughter"
  const OtherText: string := "-"

  /** `toText`: class 0 reads "laughter", every other class "-". */
  function ToText(value: int): (text: string)
    ensures text == LaughterText <==> value == 0
    ensures text == OtherText <==> value != 0
  {
    if value == 0 then LaughterText else OtherText
  }

  /** A file's label and its inference text agree: a file in the laughter
      category trains as class 0, and class 0 is reported as "laughter". */
  lemma TextMatchesTrainingLabel(category: string)
    ensures ToText(Labels.LabelId(category)) == LaughterText <==> category == Config.LaughterCategory
  {
  }

  /** `f.split('\\')[-1].split(".")[0]`: the last '\\'-segment of a path, up
      to its first '.'. */
  function Basename(path: string): (stem: string)
    ensures '.' !in stem && '\\' !in stem && |stem| <= |path|
  {
    var segment := Last(Split(path, '\\'));
    LastPiece(path, '\\');
    FirstPiece(segment, '.');
    assert forall c :: c in Split(segment, '.')[0] ==> c in segment by {
      assert Split(segment, '.')[0] == segment[..|Split(segment, '.')[0]|];
    }
    Split(segment, '.')[0]
  }

  /** The basename is the file stem: the path ends with a segment free of
      '\\' that starts the path or follows a '\\', and the basename is that
      segment up to (not including) its first '.'. */
  lemma BasenameIsStem(path: string)
    ensures var segment := Last(Split(path, '\\'));
      var stem := Basename(path);
      |segment| <= |path| && path[|path| - |segment|..] == segment && '\\' !in segment &&
      (|segment| < |path| ==> path[|path| - |segment| - 1] == '\\') &&
      |stem| <= |segment| && segment[..|stem|] == stem && '.' !in stem && '\\' !in stem &&
      (|stem| < |segment| ==> segment[|stem|] == '.')
  {
    var segment := Last(Split(path, '\\'));
    LastPiece(path, '\\');
    FirstPiece(segment, '.');
    var stem := Basename(path);
    assert forall c :: c in stem ==> c in segment by {
      assert stem == segment[..|stem|];
    }
  }

  /** `zip(files, [toText(l) for l in predictions])`: one (stem, text) pair
      per file, in order, as long as the shorter of the two lists. */
  function Report(paths: seq<string>, predictions: seq<nat>): (pairs: seq<(string, string)>)
    ensures |pairs| == if |paths| <= |predictions| then |paths| else |predictions|
    ensures forall i :: 0 <= i < |pairs| ==>
      pairs[i].0 == Basename(paths[i]) &&
      (predictions[i] == 0 ==> pairs[i].1 == LaughterText) &&
      (predictions[i] != 0 ==> pairs[i].1 == OtherText)
  {
    var n := if |paths| <= |predictions| then |paths| else |predictions|;
    seq(n, i requires 0 <= i < n => (Basename(paths[i]), ToText(predictions[i])))
  }
}
