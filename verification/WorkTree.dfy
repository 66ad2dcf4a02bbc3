/**
 * The files the pipeline's agents write, over a tree under version control: blocks are written in
 * order, and a clean-up puts every written path back to what is tracked.
 */
module WorkTree {
  import opened BlockParser
  import opened Paths
  import opened Wrappers

  /** A file is known by its path's segments, empty and "." segments dropped. */
  type FilePath = seq<string>

  type Tree = map<FilePath, string>

  function Resolve(path: string): FilePath {
    Meaningful(Split(path))
  }

  function Meaningful(parts: seq<string>): FilePath {
    if |parts| == 0 then []
    else (if parts[0] == "" || parts[0] == "." then [] else [parts[0]]) + Meaningful(parts[1..])
  }

  /** Paths that could leave the tree are skipped. */
  predicate Contained(path: string) {
    && !(exists i :: 0 <= i < |path| - 1 && path[i] == '.' && path[i + 1] == '.')
    && (|path| > 0 ==> path[0] != '/' && path[0] != '\\')
  }

  function Write(tree: Tree, b: Block): Tree {
    if Contained(b.path) then tree[Resolve(b.path) := b.code] else tree
  }

  /** The tree after writing some blocks over it in order. */
  function Overlay(tree: Tree, blocks: seq<Block>): Tree {
    if |blocks| == 0 then tree else Write(Overlay(tree, blocks[..|blocks| - 1]), blocks[|blocks| - 1])
  }

  function Targets(blocks: seq<Block>): set<FilePath> {
    set i | 0 <= i < |blocks| && Contained(blocks[i].path) :: Resolve(blocks[i].path)
  }

  function At(tree: Tree, p: FilePath): Option<string> {
    if p in tree then Some(tree[p]) else None
  }

  ghost predicate IsLastFor(blocks: seq<Block>, i: nat, p: FilePath)
    requires i < |blocks|
  {
    && Contained(blocks[i].path) && Resolve(blocks[i].path) == p
    && forall j :: i < j < |blocks| && Contained(blocks[j].path) ==> Resolve(blocks[j].path) != p
  }

  /** A file holds the code of the last block that names it. */
  ghost predicate HoldsLast(tree: Tree, blocks: seq<Block>, p: FilePath) {
    exists i :: 0 <= i < |blocks| && IsLastFor(blocks, i, p) && At(tree, p) == Some(blocks[i].code)
  }

  lemma HoldsLastStep(tree: Tree, tree': Tree, blocks: seq<Block>, p: FilePath)
    requires |blocks| > 0 && At(tree', p) == At(tree, p)
    requires HoldsLast(tree, blocks[..|blocks| - 1], p)
    requires var last := blocks[|blocks| - 1]; Contained(last.path) ==> Resolve(last.path) != p
    ensures HoldsLast(tree', blocks, p)
  {
    hide Contained, Resolve;
    var init := blocks[..|blocks| - 1];
    var i :| 0 <= i < |init| && IsLastFor(init, i, p) && At(tree, p) == Some(init[i].code);
    assert IsLastFor(blocks, i, p);
  }

  /** Writing blocks leaves other files alone and gives each target the code of the last block naming it. */
  lemma {:induction false} LaterBlocksWin(tree: Tree, blocks: seq<Block>, p: FilePath)
    ensures p !in Targets(blocks) ==> At(Overlay(tree, blocks), p) == At(tree, p)
    ensures p in Targets(blocks) ==> HoldsLast(Overlay(tree, blocks), blocks, p)
    decreases |blocks|
  {
    hide Contained, Resolve, Targets, HoldsLast;
    if |blocks| > 0 {
      var init, last := blocks[..|blocks| - 1], blocks[|blocks| - 1];
      LaterBlocksWin(tree, init, p);
      TargetsStep(blocks);
      if Contained(last.path) && Resolve(last.path) == p {
        LastHolds(Overlay(tree, init), blocks);
      } else if p in Targets(init) {
        HoldsLastStep(Overlay(tree, init), Overlay(tree, blocks), blocks, p);
      }
    } else {
      assert Targets(blocks) == {} by { NoTargets(); }
    }
  }

  lemma LastHolds(tree: Tree, blocks: seq<Block>)
    requires |blocks| > 0 && Contained(blocks[|blocks| - 1].path)
    ensures HoldsLast(Write(tree, blocks[|blocks| - 1]), blocks, Resolve(blocks[|blocks| - 1].path))
  {
    hide Contained, Resolve;
    assert IsLastFor(blocks, |blocks| - 1, Resolve(blocks[|blocks| - 1].path));
  }

  lemma NoTargets()
    ensures Targets([]) == {}
  {
  }

  lemma TargetsStep(blocks: seq<Block>)
    requires |blocks| > 0
    ensures var init, last := blocks[..|blocks| - 1], blocks[|blocks| - 1];
            Targets(blocks) == Targets(init) + if Contained(last.path) then {Resolve(last.path)} else {}
  {
    hide Contained, Resolve;
    var init, last := blocks[..|blocks| - 1], blocks[|blocks| - 1];
    var more := if Contained(last.path) then {Resolve(last.path)} else {};
    forall p | p in Targets(blocks) ensures p in Targets(init) + more {
      var i :| 0 <= i < |blocks| && Contained(blocks[i].path) && Resolve(blocks[i].path) == p;
      if i < |init| { assert init[i] == blocks[i]; }
    }
    forall p | p in Targets(init) ensures p in Targets(blocks) {
      var i :| 0 <= i < |init| && Contained(init[i].path) && Resolve(init[i].path) == p;
      assert blocks[i] == init[i];
    }
  }

  function Files(written: seq<string>): set<FilePath> {
    set f | f in written :: Resolve(f)
  }

  lemma NoFiles()
    ensures Files([]) == {}
  {
  }

  lemma OneMoreFile(written: seq<string>, path: string)
    ensures Files(written + [path]) == Files(written) + {Resolve(path)}
  {
    hide Resolve;
    assert (written + [path])[|written|] == path;
  }

  /** Whether the block that cannot be written, if there is one, is among those that are. */
  predicate CannotWrite(blocks: seq<Block>, fault: Option<nat>) {
    fault.Some? && fault.value < |blocks| && Contained(blocks[fault.value].path)
  }

  /** The blocks handled before that one. */
  function BeforeFault(blocks: seq<Block>, fault: Option<nat>): seq<Block> {
    if CannotWrite(blocks, fault) then blocks[..fault.value] else blocks
  }

  /** Parse an answer and write its blocks up to one that cannot be written; the names written come back in order. */
  method ParseAndWriteFiles(output: string, tree: Tree, fault: Option<nat>)
    returns (tree': Tree, written: seq<string>, raised: bool)
    ensures raised == CannotWrite(FindBlocks(output), fault)
    ensures tree' == Overlay(tree, BeforeFault(FindBlocks(output), fault))
    ensures Files(written) == Targets(BeforeFault(FindBlocks(output), fault))
    ensures forall f :: f in written ==> Contained(f)
  {
    hide Contained, Resolve, Targets, Files, FindBlocks;
    NoTargets();
    NoFiles();
    var matches := FindBlocks(output);
    tree', written := tree, [];
    for i := 0 to |matches|
      invariant tree' == Overlay(tree, matches[..i])
      invariant Files(written) == Targets(matches[..i])
      invariant forall f :: f in written ==> Contained(f)
      invariant CannotWrite(matches, fault) ==> i <= fault.value
    {
      assert matches[..i + 1][..i] == matches[..i];
      TargetsStep(matches[..i + 1]);
      if Contained(matches[i].path) {
        if fault == Some(i) { return tree', written, true; }
        tree' := tree'[Resolve(matches[i].path) := matches[i].code];
        OneMoreFile(written, matches[i].path);
        written := written + [matches[i].path];
      }
    }
    assert matches[..|matches|] == matches;
    raised := false;
  }

  // ---------- Clean-up ----------

  /** Every stale file that exists is checked out if it is tracked and deleted if it is not. */
  function Restored(tree: Tree, index: Tree, stale: set<FilePath>): Tree {
    map p | p in tree && (p in stale ==> p in index) :: if p in stale then index[p] else tree[p]
  }

  method CleanUp(tree: Tree, index: Tree, stale: set<FilePath>) returns (tree': Tree)
    ensures tree' == Restored(tree, index, stale)
  {
    tree' := tree;
    var left := stale;
    while left != {}
      invariant left <= stale
      invariant tree' == Restored(tree, index, stale - left)
    {
      var file :| file in left;
      if file in tree' {
        if file in index {
          tree' := tree'[file := index[file]];
        } else {
          tree' := tree' - {file};
        }
      }
      left := left - {file};
    }
    assert stale - left == stale;
  }

  /** Only touched paths differ from what they were, and none of them has gone. */
  ghost predicate ChangedOnly(tree: Tree, initial: Tree, touched: set<FilePath>) {
    && (forall p :: p in touched && p in initial ==> p in tree)
    && forall p :: p !in touched ==> At(tree, p) == At(initial, p)
  }

  lemma SameTree(a: Tree, b: Tree)
    requires forall p :: At(a, p) == At(b, p)
    ensures a == b
  {
    forall p ensures p in a <==> p in b {
      assert At(a, p) == At(b, p);
    }
    forall p | p in a ensures a[p] == b[p] {
      assert At(a, p) == At(b, p);
    }
  }

  /** The clean-up brings the initial tree back exactly when the touched files that exist began as they are tracked. */
  lemma CleanUpExact(tree: Tree, initial: Tree, index: Tree, touched: set<FilePath>)
    requires ChangedOnly(tree, initial, touched)
    ensures Restored(tree, index, touched) == initial
       <==> forall p :: p in touched && p in tree ==> At(initial, p) == At(index, p)
  {
    var restored := Restored(tree, index, touched);
    forall p ensures At(restored, p) == if p in touched && p in tree then At(index, p) else At(initial, p) {
      assert p !in touched ==> At(tree, p) == At(initial, p);
    }
    if restored == initial {
      assert forall p :: p in touched && p in tree ==> At(restored, p) == At(index, p);
    }
    if forall p :: p in touched && p in tree ==> At(initial, p) == At(index, p) {
      forall p ensures At(restored, p) == At(initial, p) {}
      SameTree(restored, initial);
    }
  }

  /** Writing blocks over a tree changes only their targets, which then all exist. */
  lemma OverlayChangesTargets(initial: Tree, blocks: seq<Block>)
    ensures ChangedOnly(Overlay(initial, blocks), initial, Targets(blocks))
    ensures Targets(blocks) <= Overlay(initial, blocks).Keys
  {
    var tree := Overlay(initial, blocks);
    forall p ensures p !in Targets(blocks) ==> At(tree, p) == At(initial, p)
             ensures p in Targets(blocks) ==> p in tree
    {
      LaterBlocksWin(initial, blocks, p);
    }
  }

  lemma {:induction false} OverlayTwice(tree: Tree, a: seq<Block>, b: seq<Block>)
    ensures Overlay(Overlay(tree, a), b) == Overlay(tree, a + b)
    decreases |b|
  {
    hide Contained, Resolve;
    if |b| > 0 {
      assert (a + b)[..|a + b| - 1] == a + b[..|b| - 1];
      OverlayTwice(tree, a, b[..|b| - 1]);
    } else {
      assert a + b == a;
    }
  }
}
