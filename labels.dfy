/** Labels from file paths: `labeltext2labelid` and `extract_labels`. */
module Labels {
  import opened Text
  import opened Wrappers
  import Config

  /** `labeltext2labelid`: the laughter category maps to 0, every other
      directory name to 1. */
  function LabelId(category: string): (id: nat)
    ensures id < Config.NumLabels
    ensures id == 0 <==> category == Config.LaughterCategory
  {
    if category == Config.LaughterCategory then 0 else 1
  }

  /** `f.split('/')[-2]`: the second-to-last '/'-segment of a path, or None
      where Python raises IndexError (a path with no '/'). */
  function ParentDir(path: string): (dir: Option<string>)
    ensures dir.Some? <==> '/' in path
    ensures dir.Some? ==> '/' !in dir.value
  {
    var pieces := Split(path, '/');
    CountPositive(path, '/');
    if |pieces| < 2 then None else Some(pieces[|pieces| - 2])
  }

  /** The segment ParentDir returns is the name of the directory directly
      holding the file: `path` ends with that name, a '/', and a last segment
      free of '/', and the name starts the path or follows a '/'. */
  lemma ParentDirIsEnclosingDirectory(path: string)
    requires '/' in path
    ensures var dir := ParentDir(path).value;
      var name := Last(Split(path, '/'));
      var end := |path| - |name| - 1;
      0 <= end - |dir| && path[end - |dir|..end] == dir && path[end] == '/' &&
      path[end + 1..] == name && '/' !in name &&
      (end - |dir| == 0 || path[end - |dir| - 1] == '/')
  {
    var front, name, dir := LastTwoSegments(path);
    EnclosedBy(path, front, name, dir);
  }

  /** `path` is the join of everything before its last '/', a '/', and the
      last segment; the segment before that last '/' is ParentDir's. */
  lemma LastTwoSegments(path: string) returns (front: string, name: string, dir: string)
    requires '/' in path
    ensures path == front + ['/'] + name
    ensures name == Last(Split(path, '/')) && '/' !in name
    ensures dir == ParentDir(path).value
    ensures |dir| <= |front| && front[|front| - |dir|..] == dir
    ensures |dir| < |front| ==> front[|front| - |dir| - 1] == '/'
  {
    var pieces := Split(path, '/');
    var n := |pieces|;
    assert n >= 2 by { CountPositive(path, '/'); }
    front := Join(pieces[..n - 1], '/');
    name := pieces[n - 1];
    dir := pieces[n - 2];
    assert path == front + ['/'] + name by {
      JoinSplit(path, '/');
      JoinLast(pieces, '/');
    }
    assert dir == Last(Split(front, '/')) by {
      SplitJoin(pieces[..n - 1], '/');
    }
    LastPiece(front, '/');
  }

  /** Index arithmetic behind ParentDirIsEnclosingDirectory. */
  lemma EnclosedBy(path: string, front: string, name: string, dir: string)
    requires path == front + ['/'] + name
    requires |dir| <= |front| && front[|front| - |dir|..] == dir
    requires |dir| < |front| ==> front[|front| - |dir| - 1] == '/'
    ensures var end := |path| - |name| - 1;
      0 <= end - |dir| && path[end - |dir|..end] == dir && path[end] == '/' &&
      path[end + 1..] == name &&
      (end - |dir| == 0 || path[end - |dir| - 1] == '/')
  {
    var end := |front|;
    assert path[..end] == front;
    assert path[end - |dir|..end] == front[end - |dir|..];
    assert path[end + 1..] == name;
  }

  /** The label a path gets once ParentDir succeeds. */
  function LabelOf(path: string): nat
    requires '/' in path
  {
    LabelId(ParentDir(path).value)
  }

  datatype Labelling = Labelled(labels: seq<nat>) | IndexError(at: nat)

  /** `extract_labels`: one label per file name, in order; the first path
      without a '/' aborts with IndexError. */
  method ExtractLabels(filenames: seq<string>) returns (r: Labelling)
    ensures r.IndexError? <==> exists i :: 0 <= i < |filenames| && '/' !in filenames[i]
    ensures r.IndexError? ==>
      r.at < |filenames| && '/' !in filenames[r.at] &&
      forall j :: 0 <= j < r.at ==> '/' in filenames[j]
    ensures r.Labelled? ==>
      |r.labels| == |filenames| &&
      forall i :: 0 <= i < |filenames| ==>
        r.labels[i] < Config.NumLabels &&
        (r.labels[i] == 0 <==> ParentDir(filenames[i]) == Some(Config.LaughterCategory))
  {
    var labels: seq<nat> := [];
    var i := 0;
    while i < |filenames|
      invariant 0 <= i <= |filenames|
      invariant |labels| == i
      invariant forall j :: 0 <= j < i ==> '/' in filenames[j] && labels[j] == LabelOf(filenames[j])
    {
      var pieces := Split(filenames[i], '/');
      CountPositive(filenames[i], '/');
      if |pieces| < 2 {
        return IndexError(i);
      }
      labels := labels + [LabelId(pieces[|pieces| - 2])];
      i := i + 1;
    }
    return Labelled(labels);
  }
}
