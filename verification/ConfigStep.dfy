/** The configuration step of installing, updating and removing packages.

    The old configuration image is the base.  The user's side is the base with the upper directory of the running
    system's overlay mount laid over it; the package's side is the base without the files that leave and with the new
    defaults laid over it.  The two are merged into the next configuration image.
  */
module ConfigStep {
  import opened Basics
  import opened Paths
  import opened Trees
  import opened Diff
  import opened Merge
  import opened Overlay
  import opened UpperOverlay
  import opened Removals

  /** The user's side of the merge. */
  ghost predicate IsLive(live: Tree, base: Tree, upper: Upper) {
    && View(live, []) == View(base, [])
    && forall q :: q != [] ==> View(live, q) == Seen(upper, base, [], q)
  }

  ghost predicate IsLayered(t: Tree, base: Tree, overlay: Tree) {
    forall q :: View(t, q) == Layered(base, overlay, q)
  }

  method NextConfig(base: FileSystem, upper: Upper, removed: seq<Path>, defaults: FileSystem, allowConflictFiles: bool)
      returns (r: MergeOutcome, ghost live: Tree, ghost cut: Tree, ghost new_: Tree)
    requires Valid(base.Value()) && Valid(defaults.Value()) && upper.UpperDir?
    ensures UpperFits(upper, base.Value(), []) ==> IsLive(live, base.Value(), upper)
    ensures UpperFits(upper, base.Value(), []) && Removable(base.Value(), removed) ==>
              && IsCut(cut, base.Value(), removed)
              && (Fits(cut, defaults.Value(), []) ==> IsLayered(new_, cut, defaults.Value()))
    ensures r.Merge? <==>
      && UpperFits(upper, base.Value(), [])
      && Removable(base.Value(), removed)
      && Fits(cut, defaults.Value(), [])
      && MergeSucceeds(base.Value(), new_, live, allowConflictFiles)
    ensures r.Merge? ==> Valid(r.result.tree.Value())
    ensures r.Merge? ==> forall q :: View(r.result.tree.Value(), q)
                                   == Merged(base.Value(), new_, live, allowConflictFiles, q)
    ensures r.Merge? ==> forall p :: p in r.result.conflicts <==> IsConflict(base.Value(), new_, live, p)
  {
    hide View, Valid, Seen, UpperFits, Fits, Layered, Removable, IsCut, MergeSucceeds, Merged, IsConflict;
    live, cut, new_ := base.Value(), base.Value(), base.Value();
    var liveTree := new FileSystem.Clone(base);
    var outcome := ApplyOverlayUpper(liveTree, upper);
    if outcome.Err? {
      return Failed(outcome.error), live, cut, new_;
    }
    live := liveTree.Value();
    var newTree := new FileSystem.Clone(base);
    outcome := RemoveAll(newTree, removed);
    if outcome.Err? {
      return Failed(outcome.error), live, cut, new_;
    }
    cut := newTree.Value();
    outcome := ApplyTreeOverlay(newTree, defaults);
    if outcome.Err? {
      return Failed(outcome.error), live, cut, new_;
    }
    new_ := newTree.Value();
    r := MergeConfig(base, newTree, liveTree, allowConflictFiles);
  }

  // ---- What the user can rely on ---------------------------------------------------------------------

  lemma NodeAt(live: Tree, base: Tree, upper: Upper, q: Path)
    requires IsLive(live, base, upper) && upper.UpperDir?
    ensures Lookup(upper, q).None? && !Covered(upper, q) ==> View(live, q) == View(base, q)
    ensures forall leaf :: Lookup(upper, q) == Some(UpperFile(leaf)) ==> View(live, q) == LeafNode(leaf)
    ensures Lookup(upper, q) == Some(Whiteout) ==> View(live, q) == Absent
  {
    hide View;
    if q != [] {
      assert q[0..] == q;
      assert View(live, q) == Seen(upper, base, [], q);
    }
  }

  /** A file the user wrote, with other content than before, is in the next configuration as the user left it,
      whatever the packages bring, unless it took the place of a device, fifo or socket. */
  lemma UserFileSurvives(base: Tree, upper: Upper, new_: Tree, live: Tree, sidecars: bool, q: Path, leaf: Leaf)
    requires IsLive(live, base, upper) && upper.UpperDir?
    requires Lookup(upper, q) == Some(UpperFile(leaf)) && (leaf.content.Regular? || leaf.content.Symlink?)
    requires HasLeaf(base, q) ==>
      var before := View(base, q).leaf.content;
      || (before.Symlink? && before != leaf.content)
      || (before.Regular? && (before != leaf.content || before.file.ExternalNoVerity? || before.file.Sparse?))
    ensures Merged(base, new_, live, sidecars, q) == LeafNode(leaf)
  {
    hide View, IsLive;
    NodeAt(live, base, upper, q);
  }

  /** A copy of a conflicting package file has been put at the path or above it. */
  ghost predicate Shadowed(base: Tree, new_: Tree, live: Tree, sidecars: bool, q: Path) {
    sidecars && ((exists p :: IsSidecarOf(base, new_, live, p, q)) || BelowSidecar(base, new_, live, q))
  }

  /** What such a copy makes of a path the user did not touch: the copy itself, or nothing below it. */
  lemma ShadowedHoldsCopy(base: Tree, new_: Tree, live: Tree, sidecars: bool, q: Path)
    requires Shadowed(base, new_, live, sidecars, q) && !Touched(base, new_, live, q) && !BelowEdit(base, live, q)
    ensures (exists p :: IsSidecarOf(base, new_, live, p, q) && Merged(base, new_, live, sidecars, q) == View(new_, p))
            || Merged(base, new_, live, sidecars, q) == Absent
  {
    hide View;
  }

  /** Where the upper directory shows something, everything above is a directory the user did not write. */
  lemma NothingWrittenAbove(base: Tree, upper: Upper, live: Tree, q: Path)
    requires IsLive(live, base, upper) && upper.UpperDir? && Lookup(upper, q).Some?
    ensures !BelowEdit(base, live, q)
  {
    hide View, IsLive;
    forall p | Above(p, q) ensures !Edited(base, live, p) {
      DirectoryAbove(base, upper, live, p, q);
    }
  }

  lemma {:induction false} LookupAbove(u: Upper, p: Path, q: Path)
    requires Above(p, q) && Lookup(u, q).Some?
    ensures Lookup(u, p).Some? && Lookup(u, p).value.UpperDir?
    decreases |p|
  {
    if p != [] {
      assert p[1..] == q[1..][..|p| - 1];
      LookupAbove(u.entries[q[0]], p[1..], q[1..]);
    }
  }

  lemma DirectoryAbove(base: Tree, upper: Upper, live: Tree, p: Path, q: Path)
    requires IsLive(live, base, upper) && upper.UpperDir?
    requires Above(p, q) && Lookup(upper, q).Some?
    ensures View(live, p).DirNode?
  {
    hide View;
    LookupAbove(upper, p, q);
    RootIsDirectory(base);
    if p != [] {
      assert p[0..] == p;
      assert View(live, p) == Seen(upper, base, [], p);
    }
  }

  /** A file the user deleted stays deleted, except that a file the packages wrote is there again, as a conflict. */
  lemma UserDeletionHolds(base: Tree, upper: Upper, new_: Tree, live: Tree, sidecars: bool, q: Path)
    requires IsLive(live, base, upper) && upper.UpperDir?
    requires Lookup(upper, q) == Some(Whiteout) && Tracked(View(base, q))
    ensures !Edited(base, new_, q) && !Deleted(base, new_, q) ==> Merged(base, new_, live, sidecars, q) == Absent
    ensures (Edited(base, new_, q) || Deleted(base, new_, q)) && !Shadowed(base, new_, live, sidecars, q) ==>
              Merged(base, new_, live, sidecars, q) == View(new_, q)
    ensures IsConflict(base, new_, live, q) <==> Edited(base, new_, q)
    ensures Deleted(base, new_, q) ==> !HasLeaf(new_, q)
  {
    hide View, IsLive;
    NodeAt(live, base, upper, q);
    NothingWrittenAbove(base, upper, live, q);
  }

  /** The leaf at the path, if any, has content that can be compared. */
  predicate ComparableAt(base: Tree, p: Path) {
    Tracked(View(base, p)) ==> ContentMatches(View(base, p).leaf, View(base, p).leaf)
  }

  lemma NothingChangedAbove(base: Tree, upper: Upper, live: Tree, q: Path)
    requires IsLive(live, base, upper) && upper.UpperDir?
    requires forall p :: Prefix(p, q) ==> ComparableAt(base, p)
    requires Lookup(upper, q).None? && !Covered(upper, q)
    ensures !Edited(base, live, q) && !Deleted(base, live, q) && !BelowEdit(base, live, q)
  {
    hide View, IsLive;
    NodeAt(live, base, upper, q);
    assert Prefix(q, q);
    forall p | Above(p, q) ensures !Edited(base, live, p) {
      assert Prefix(p, q);
      NodeAt(live, base, upper, p);
      UpperAbove(base, upper, live, p, q);
    }
  }

  lemma UpperAbove(base: Tree, upper: Upper, live: Tree, p: Path, q: Path)
    requires IsLive(live, base, upper) && upper.UpperDir?
    requires Above(p, q) && !Covered(upper, q)
    ensures Lookup(upper, p).Some? ==> View(live, p).DirNode?
    ensures Lookup(upper, p).None? ==> !Covered(upper, p)
  {
    hide View;
    if Lookup(upper, p).Some? {
      if p != [] {
        assert !Hides(upper, p);
        assert p[0..] == p;
        assert View(live, p) == Seen(upper, base, [], p);
      } else {
        RootIsDirectory(base);
      }
    }
    CoveredBelow(upper, p, q);
  }

  lemma CoveredBelow(upper: Upper, p: Path, q: Path)
    requires Above(p, q)
    ensures Covered(upper, p) ==> Covered(upper, q)
  {
    if r :| r != [] && Above(r, p) && Hides(upper, r) {
      AboveIsTransitive(r, p, q);
      assert Above(r, q);
    }
  }

  /** Where the user's side says nothing, the packages decide, save for copies of conflicting files. */
  lemma PackagesDecideElsewhere(base: Tree, upper: Upper, new_: Tree, live: Tree, sidecars: bool, q: Path)
    requires IsLive(live, base, upper) && upper.UpperDir?
    requires forall p :: Prefix(p, q) ==> ComparableAt(base, p)
    requires Lookup(upper, q).None? && !Covered(upper, q)
    ensures !Shadowed(base, new_, live, sidecars, q) ==> Merged(base, new_, live, sidecars, q) == View(new_, q)
    ensures !IsConflict(base, new_, live, q)
  {
    hide View, IsLive;
    NothingChangedAbove(base, upper, live, q);
  }

  /** Removing packages writes nothing: there are no conflicts and no copies, and where the user's side says nothing the
      removed files are gone and the others are as they were. */
  lemma UninstallOnlyRemoves(base: Tree, upper: Upper, removed: seq<Path>, new_: Tree, live: Tree, sidecars: bool,
                             q: Path)
    requires IsLive(live, base, upper) && upper.UpperDir? && OnlyComparableLeaves(base)
    requires IsCut(new_, base, removed)
    ensures !IsConflict(base, new_, live, q) && !Shadowed(base, new_, live, sidecars, q)
    ensures Lookup(upper, q).None? && !Covered(upper, q) ==>
              Merged(base, new_, live, sidecars, q) == CutView(base, removed, q)
  {
    hide View, IsLive;
    forall p ensures !Edited(base, new_, p) && ComparableAt(base, p) {
      assert View(new_, p) == CutView(base, removed, p);
    }
    if Lookup(upper, q).None? && !Covered(upper, q) {
      PackagesDecideElsewhere(base, upper, new_, live, sidecars, q);
    }
  }
}
