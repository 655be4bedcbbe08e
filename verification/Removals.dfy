/** Removing several paths from a tree, one after the other. */
module Removals {
  import opened Basics
  import opened Paths
  import opened Trees

  /** Removing `p` works in a tree from which the earlier paths have been removed. */
  predicate CanRemove(t: Tree, earlier: seq<Path>, p: Path) {
    p != [] && HasDir(t, Parent(p)) && forall j :: 0 <= j < |earlier| ==> !Prefix(earlier[j], Parent(p))
  }

  predicate CanRemoveAt(t: Tree, paths: seq<Path>, i: nat)
    requires i < |paths|
  {
    CanRemove(t, paths[..i], paths[i])
  }

  /** The paths can be removed one after the other. */
  predicate Removable(t: Tree, paths: seq<Path>) {
    forall i :: 0 <= i < |paths| ==> CanRemoveAt(t, paths, i)
  }

  function CutView(t: Tree, paths: seq<Path>, q: Path): Node {
    if exists i :: 0 <= i < |paths| && Prefix(paths[i], q) then Absent else View(t, q)
  }

  /** `t'` is `t` without the paths and everything below them. */
  ghost predicate IsCut(t': Tree, t: Tree, paths: seq<Path>) {
    forall q :: View(t', q) == CutView(t, paths, q)
  }

  lemma SameAt(t: Tree, paths: seq<Path>, n: nat, i: nat)
    requires i < n <= |paths|
    ensures CanRemoveAt(t, paths[..n], i) == CanRemoveAt(t, paths, i)
  {
    assert paths[..n][..i] == paths[..i];
  }

  lemma RemovableSoFar(t: Tree, paths: seq<Path>, n: nat)
    requires n <= |paths|
    ensures Removable(t, paths[..n]) <==> forall i :: 0 <= i < n ==> CanRemoveAt(t, paths, i)
  {
    hide CanRemoveAt;
    forall i | 0 <= i < n ensures CanRemoveAt(t, paths[..n], i) == CanRemoveAt(t, paths, i) {
      SameAt(t, paths, n, i);
    }
  }

  /** Whether one more path can be removed after the others. */
  lemma RemovableNext(t: Tree, paths: seq<Path>, p: Path)
    ensures Removable(t, paths + [p]) <==> Removable(t, paths) && CanRemove(t, paths, p)
  {
    var more := paths + [p];
    assert more[..|paths|] == paths;
    RemovableSoFar(t, more, |paths|);
    assert CanRemoveAt(t, more, |paths|) == CanRemove(t, paths, p);
  }

  lemma NotRemovableLater(t: Tree, some: seq<Path>, paths: seq<Path>)
    requires some <= paths && !Removable(t, some)
    ensures !Removable(t, paths)
  {
    assert paths[..|some|] == some;
    RemovableSoFar(t, paths, |some|);
  }

  /** Cutting one more path off a tree. */
  lemma CutOneMore(t'': Tree, t': Tree, t: Tree, paths: seq<Path>, p: Path)
    requires IsCut(t', t, paths) && BecamePlaced(t'', t', p, Absent)
    ensures IsCut(t'', t, paths + [p])
  {
    var more := paths + [p];
    forall q ensures View(t'', q) == CutView(t, more, q) {
      if Prefix(p, q) {
        assert more[|paths|] == p;
        assert |p| == |q| ==> p == q;
      } else if i :| 0 <= i < |paths| && Prefix(paths[i], q) {
        assert more[i] == paths[i];
      }
    }
  }

  lemma CutSplits(t': Tree, t: Tree, paths: seq<Path>, p: Path)
    requires IsCut(t', t, paths)
    ensures SplitError(t'.root, p) == None <==> CanRemove(t, paths, p)
  {
    SplitNeedsParent(t', p);
    if p != [] {
      assert View(t', Parent(p)) == CutView(t, paths, Parent(p));
    }
  }

  /** Removes one path from a tree that already lacks the earlier ones. */
  method RemoveNext(tree: FileSystem, p: Path, ghost t: Tree, ghost paths: seq<Path>) returns (r: Outcome)
    requires Valid(tree.Value()) && IsCut(tree.Value(), t, paths)
    modifies tree`root
    ensures r.Ok? <==> CanRemove(t, paths, p)
    ensures Valid(tree.Value())
    ensures r.Ok? ==> IsCut(tree.Value(), t, paths + [p])
    ensures tree.leaves == old(tree.leaves)
  {
    hide IsCut, Valid, CanRemove, BecamePlaced, SplitError;
    CutSplits(tree.Value(), t, paths, p);
    ghost var before := tree.Value();
    r := FileHandle(p).RemoveInTree(tree);
    if r.Ok? {
      CutOneMore(tree.Value(), before, t, paths, p);
    }
  }

  /** Removes the paths in order, stopping at the first that cannot be. */
  method RemoveAll(tree: FileSystem, paths: seq<Path>) returns (r: Outcome)
    requires Valid(tree.Value())
    modifies tree`root
    ensures Valid(tree.Value())
    ensures r.Ok? <==> Removable(old(tree.Value()), paths)
    ensures r.Ok? ==> IsCut(tree.Value(), old(tree.Value()), paths)
  {
    hide Valid, IsCut, CanRemove, Removable;
    ghost var t := tree.Value();
    NothingCut(t);
    assert paths[..0] == [];
    for i := 0 to |paths|
      invariant Valid(tree.Value()) && Removable(t, paths[..i]) && IsCut(tree.Value(), t, paths[..i])
    {
      assert paths[..i + 1] == paths[..i] + [paths[i]];
      RemovableNext(t, paths[..i], paths[i]);
      r := RemoveNext(tree, paths[i], t, paths[..i]);
      if r.Err? {
        NotRemovableLater(t, paths[..i + 1], paths);
        return;
      }
    }
    assert paths[..|paths|] == paths;
    r := Ok;
  }

  /** The cut paths and everything below them are gone, and all else is as it was. */
  lemma CutShows(t': Tree, t: Tree, paths: seq<Path>)
    ensures IsCut(t', t, paths)
       <==> && (forall p, r :: p in paths ==> View(t', p + r) == Absent)
            && (forall q :: (forall p :: p in paths ==> !(p <= q)) ==> View(t', q) == View(t, q))
    ensures Removable(t, paths)
       <==> forall i :: 0 <= i < |paths| ==>
              && paths[i] != [] && View(t, paths[i][..|paths[i]| - 1]).DirNode?
              && forall j :: 0 <= j < i ==> !(paths[j] <= paths[i][..|paths[i]| - 1])
  {
    hide View;
    if IsCut(t', t, paths) {
      forall p, r | p in paths ensures View(t', p + r) == Absent {
        var i :| 0 <= i < |paths| && paths[i] == p;
        assert Prefix(paths[i], p + r) by {
          assert (p + r)[..|p|] == p;
        }
      }
    }
    forall q, i | 0 <= i < |paths| && Prefix(paths[i], q) ensures paths[i] in paths && q == paths[i] + q[|paths[i]|..] {
    }
    forall i | 0 <= i < |paths|
      ensures CanRemoveAt(t, paths, i)
         <==> && paths[i] != [] && View(t, paths[i][..|paths[i]| - 1]).DirNode?
              && forall j :: 0 <= j < i ==> !(paths[j] <= paths[i][..|paths[i]| - 1])
    {
      assert forall j :: 0 <= j < i ==> paths[..i][j] == paths[j];
    }
  }

  lemma NothingCut(t: Tree)
    ensures Removable(t, []) && IsCut(t, t, [])
  {
  }
}
