/** Where an answer's blocks may be written, told in characters: never outside the tree. */
module WrittenPaths {
  import opened BlockParser
  import opened Paths
  import opened WorkTree
  import opened Wrappers

  predicate DotDotAt(path: string, i: int) {
    0 <= i <= |path| - 2 && path[i..i + 2] == ".."
  }

  lemma DotsExactly(path: string, i: int)
    ensures DotDotAt(path, i) <==> 0 <= i < |path| - 1 && path[i] == '.' && path[i + 1] == '.'
  {
    if 0 <= i <= |path| - 2 {
      assert path[i..i + 2] == [path[i], path[i + 1]];
      assert ".." == ['.', '.'];
    }
  }

  ghost predicate HoldsDots(path: string) {
    exists i :: DotDotAt(path, i)
  }

  lemma DotsFound(path: string)
    ensures HoldsDots(path) <==> exists i :: 0 <= i < |path| - 1 && path[i] == '.' && path[i + 1] == '.'
  {
    if i :| DotDotAt(path, i) { DotsExactly(path, i); }
    if i :| 0 <= i < |path| - 1 && path[i] == '.' && path[i + 1] == '.' { DotsExactly(path, i); }
  }

  /** A block is written exactly if its path holds no ".." and begins with neither kind of slash. */
  lemma ContainedExactly(path: string)
    ensures Contained(path) <==> !HoldsDots(path) && (path == "" || (path[0] != '/' && path[0] != '\\'))
  {
    DotsFound(path);
    hide HoldsDots;
  }

  /** Segments that name something: neither empty nor a dot. */
  predicate Names(parts: seq<string>) {
    forall p :: p in parts ==> p != "" && p != "."
  }

  lemma {:induction false} MeaningfulNames(parts: seq<string>)
    ensures forall p :: p in Meaningful(parts) ==> p in parts && p != "" && p != "."
  {
    if |parts| > 0 { MeaningfulNames(parts[1..]); }
  }

  lemma {:induction false} NamesAreMeaningful(parts: seq<string>)
    requires Names(parts)
    ensures Meaningful(parts) == parts
  {
    if |parts| > 0 {
      assert parts[0] in parts;
      assert forall p :: p in parts[1..] ==> p in parts;
      NamesAreMeaningful(parts[1..]);
    }
  }

  lemma {:induction false} MeaningfulOfBoth(a: seq<string>, b: seq<string>)
    ensures Meaningful(a + b) == Meaningful(a) + Meaningful(b)
  {
    if |a| > 0 {
      assert (a + b)[1..] == a[1..] + b;
      MeaningfulOfBoth(a[1..], b);
    } else {
      assert a + b == b;
    }
  }

  lemma MeansNothing(a: seq<string>, part: string, b: seq<string>)
    requires part == "" || part == "."
    ensures Meaningful(a + [part] + b) == Meaningful(a + b)
  {
    assert Meaningful([part]) == [];
    MeaningfulOfBoth(a, b);
    MeaningfulOfBoth(a, [part]);
    MeaningfulOfBoth(a + [part], b);
  }

  /**
   * A path names the file of its segments, an empty or a dot segment anywhere in it making no
   * difference, and every other segment being kept in its place.
   */
  lemma ResolvesExactly(path: string, a: seq<string>, b: seq<string>)
    requires Split(path) == a + b
    ensures Names(Split(path)) ==> Resolve(path) == Split(path)
    ensures Resolve(path) == Meaningful(a + [""] + b) == Meaningful(a + ["."] + b)
  {
    if Names(Split(path)) { NamesAreMeaningful(Split(path)); }
    MeansNothing(a, "", b);
    MeansNothing(a, ".", b);
  }

  lemma {:induction false} PartOfJoin(parts: seq<string>, k: nat) returns (i: nat)
    requires k < |parts|
    ensures i + |parts[k]| <= |Join(parts)| && Join(parts)[i..i + |parts[k]|] == parts[k]
  {
    if k == 0 {
      i := 0;
    } else {
      var j := PartOfJoin(parts[1..], k - 1);
      i := |parts[0]| + 1 + j;
      assert Join(parts) == parts[0] + "/" + Join(parts[1..]);
      assert Join(parts)[i..i + |parts[k]|] == Join(parts[1..])[j..j + |parts[k]|];
    }
  }

  /** No written file is outside the tree: no segment of a contained path climbs out. */
  lemma NeverClimbs(path: string)
    requires Contained(path)
    ensures ".." !in Resolve(path)
  {
    MeaningfulNames(Split(path));
    JoinSplit(path);
    ContainedExactly(path);
    hide Contained, Meaningful;
    forall k | 0 <= k < |Split(path)| ensures Split(path)[k] != ".." {
      var i := PartOfJoin(Split(path), k);
      assert !DotDotAt(path, i);
    }
  }

  /** What a clean-up leaves at a path: a stale file that exists as it is tracked, or gone, and any other as it was. */
  lemma RestoredExactly(tree: Tree, index: Tree, stale: set<FilePath>, p: FilePath)
    ensures At(Restored(tree, index, stale), p) == if p in stale && p in tree then At(index, p) else At(tree, p)
  {
  }

  /**
   * A block that cannot be written ends the writing there exactly if it would be written; those before
   * it are, no others.
   */
  lemma FaultExactly(tree: Tree, blocks: seq<Block>, k: nat)
    requires k < |blocks|
    ensures CannotWrite(blocks, Some(k)) <==> Contained(blocks[k].path)
    ensures Overlay(tree, BeforeFault(blocks, Some(k)))
         == Overlay(tree, if Contained(blocks[k].path) then blocks[..k] else blocks)
    ensures Overlay(tree, BeforeFault(blocks, None)) == Overlay(tree, blocks)
  {
    hide Contained, Overlay;
  }
}
