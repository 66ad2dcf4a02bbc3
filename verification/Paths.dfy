/** Paths as sequences of segments. */
module Paths {
  /** The segments of a path; an empty path has one empty segment. */
  function Split(path: string): (parts: seq<string>)
    ensures |parts| > 0
    ensures forall i :: 0 <= i < |parts| ==> '/' !in parts[i]
  {
    if |path| == 0 then [""]
    else
      var rest := Split(path[1..]);
      if path[0] == '/' then [""] + rest else [[path[0]] + rest[0]] + rest[1..]
  }

  function Join(parts: seq<string>): string
    requires |parts| > 0
  {
    if |parts| == 1 then parts[0] else parts[0] + "/" + Join(parts[1..])
  }

  lemma {:induction false} JoinSplit(path: string)
    ensures Join(Split(path)) == path
  {
    if |path| > 0 {
      JoinSplit(path[1..]);
      var rest := Split(path[1..]);
      if path[0] == '/' {
        assert ([""] + rest)[1..] == rest;
      } else {
        var parts := [[path[0]] + rest[0]] + rest[1..];
        assert parts[1..] == rest[1..];
        assert [path[0]] + path[1..] == path;
        if |rest| > 1 {
          assert Join(parts) == [path[0]] + (rest[0] + "/" + Join(rest[1..]));
        }
      }
    }
  }

  lemma {:induction false} SplitJoin(parts: seq<string>)
    requires |parts| > 0 && forall i :: 0 <= i < |parts| ==> '/' !in parts[i]
    ensures Split(Join(parts)) == parts
    decreases |parts|, |parts[0]|
  {
    var text := Join(parts);
    if |parts[0]| > 0 {
      var shorter := [parts[0][1..]] + parts[1..];
      SplitJoin(shorter);
      assert shorter[1..] == parts[1..];
      assert text[1..] == Join(shorter);
      assert text[0] == parts[0][0] != '/';
      assert [text[0]] + parts[0][1..] == parts[0];
    } else if |parts| > 1 {
      SplitJoin(parts[1..]);
      assert text[1..] == Join(parts[1..]);
      assert [""] + parts[1..] == parts;
    }
  }
}
