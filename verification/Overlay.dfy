/** Layering one tree over another.

    ApplyTreeOverlay lays a tree of new files over a base tree.  ApplyOverlayUpper lays the upper directory of an
    overlay mount, with its whiteouts and opaque directories, over a base tree.  Both edit the base in place, path by
    path; both are specified by what each path must hold afterwards.
  */
module Overlay {
  import opened Basics
  import opened Paths
  import opened Trees

  // ---- Laying a tree over a tree -------------------------------------------------------------------

  ghost predicate BelowLeaf(t: Tree, q: Path) {
    exists p :: HasLeaf(t, p) && Above(p, q)
  }

  /** The overlay where it has something, nothing below its leaves, the base elsewhere. */
  ghost function Layered(base: Tree, overlay: Tree, q: Path): Node {
    if q == [] then View(base, q)
    else if View(overlay, q) != Absent then View(overlay, q)
    else if BelowLeaf(overlay, q) then Absent
    else View(base, q)
  }

  /** The overlay's directories and leaves show, nothing shows below its leaves, and everything else is the base's. */
  lemma LayersShow(now: Tree, base: Tree, overlay: Tree)
    requires forall q :: View(now, q) == Layered(base, overlay, q)
    ensures View(now, []) == View(base, [])
    ensures forall q :: q != [] && View(overlay, q) != Absent ==> View(now, q) == View(overlay, q)
    ensures forall p, r :: View(overlay, p).LeafNode? && r != [] ==> View(now, p + r) == Absent
    ensures forall q :: View(overlay, q) == Absent && (forall p :: p <= q ==> !View(overlay, p).LeafNode?) ==>
              View(now, q) == View(base, q)
    ensures Fits(base, overlay, [])
       <==> forall q :: q != [] && View(overlay, q).DirNode? ==> !View(base, q).LeafNode?
  {
    hide View;
    forall q | Fits(base, overlay, []) && q != [] && View(overlay, q).DirNode? ensures !View(base, q).LeafNode? {
      assert Above([], q) && HasDir(overlay, q) && !HasLeaf(base, q);
    }
    forall p, r | View(overlay, p).LeafNode? && r != [] ensures View(now, p + r) == Absent {
      assert (p + r)[..|p|] == p;
      assert Above(p, p + r);
      NothingBelow(overlay, p, p + r);
    }
  }

  /** No directory of the overlay, below `p`, sits on a leaf of the base. */
  ghost predicate Fits(base: Tree, overlay: Tree, p: Path) {
    forall q :: Above(p, q) && HasDir(overlay, q) ==> !HasLeaf(base, q)
  }

  /** `now` is `before` with everything below `p`, through the entries `names`, layered. */
  ghost predicate LayeredBelow(now: Tree, before: Tree, overlay: Tree, p: Path, names: set<Name>) {
    forall q :: View(now, q) == if Above(p, q) && q[|p|] in names then Layered(before, overlay, q) else View(before, q)
  }

  lemma {:induction false} AtConcat(d: Directory, p: Path, q: Path)
    requires At(d, p).Some? && At(d, p).value.Dir?
    ensures At(d, p + q) == At(At(d, p).value.dir, q)
  {
    if p == [] {
      assert p + q == q;
    } else {
      assert (p + q)[1..] == p[1..] + q;
      AtConcat(d.entries[p[0]].dir, p[1..], q);
    }
  }

  lemma ChildPath(p: Path, n: Name, q: Path)
    ensures Prefix(p + [n], q) <==> Above(p, q) && q[|p|] == n
    ensures Above(p + [n], q) ==> Above(p, q) && q[|p|] == n
    ensures Parent(p + [n]) == p && Above(p, p + [n])
  {
    if Prefix(p + [n], q) {
      assert q[|p|] == q[..|p| + 1][|p|] && q[..|p|] == q[..|p| + 1][..|p|];
    }
    if Above(p, q) && q[|p|] == n {
      assert q[..|p| + 1] == p + [n];
    }
  }

  lemma LeafLayered(now: Tree, mid: Tree, before: Tree, overlay: Tree, p: Path, names: set<Name>, n: Name)
    requires LayeredBelow(mid, before, overlay, p, names) && n !in names
    requires HasLeaf(overlay, p + [n])
    requires forall q :: View(now, q) == Placed(mid, p + [n], View(overlay, p + [n]), q)
    ensures LayeredBelow(now, before, overlay, p, names + {n})
  {
    hide View;
    forall q ensures View(now, q) == if Above(p, q) && q[|p|] in names + {n}
                                     then Layered(before, overlay, q) else View(before, q) {
      ChildPath(p, n, q);
      assert View(now, q) == Placed(mid, p + [n], View(overlay, p + [n]), q);
      if Above(p + [n], q) {
        NothingBelow(overlay, p + [n], q);
      } else if Prefix(p + [n], q) {
        assert q == p + [n];
      }
    }
  }

  /** A directory of the overlay: `start` is the tree once the directory itself is in place. */
  lemma DirectoryLayered(now: Tree, start: Tree, mid: Tree, before: Tree, overlay: Tree, p: Path, names: set<Name>,
                         n: Name, sub: Directory)
    requires LayeredBelow(mid, before, overlay, p, names) && n !in names
    requires At(overlay.root, p + [n]) == Some(Dir(sub))
    requires Restatted(start, mid, p + [n], DirNode(sub.stat))
    requires LayeredBelow(now, start, overlay, p + [n], sub.entries.Keys)
    ensures LayeredBelow(now, before, overlay, p, names + {n})
  {
    hide View, At;
    forall q ensures View(now, q) == if Above(p, q) && q[|p|] in names + {n}
                                     then Layered(before, overlay, q) else View(before, q) {
      ChildPath(p, n, q);
      assert View(start, q) == if q == p + [n] then DirNode(sub.stat) else View(mid, q);
      assert View(mid, q) == if Above(p, q) && q[|p|] in names then Layered(before, overlay, q) else View(before, q);
      ViewOfEntry(overlay, p + [n]);
      if Prefix(p + [n], q) && !Above(p + [n], q) {
        assert q == p + [n];
      } else if Above(p + [n], q) && q[|p| + 1] !in sub.entries {
        OnlyEntriesShow(overlay, p + [n], sub, q);
      }
    }
  }

  /** `t'` is `t` with the node at `p` replaced and everything else, also below, as it was. */
  ghost predicate Restatted(t': Tree, t: Tree, p: Path, node: Node) {
    forall q :: View(t', q) == if q == p then node else View(t, q)
  }

  lemma InsertedWhereNothingWas(t': Tree, t: Tree, p: Path, node: Node)
    requires BecamePlaced(t', t, p, node) && View(t, p) == Absent
    ensures Restatted(t', t, p, node)
  {
    hide View;
    forall q ensures View(t', q) == if q == p then node else View(t, q) {
      if Above(p, q) {
        NothingBelow(t, p, q);
      }
    }
  }

  lemma NothingBelow(t: Tree, p: Path, q: Path)
    requires !HasDir(t, p) && Above(p, q)
    ensures View(t, q) == Absent
  {
    NothingBelowNonDirectory(t.leaves, t.root, p, q);
  }

  lemma ViewOfEntry(t: Tree, p: Path)
    ensures View(t, p) == NodeOf(t.leaves, At(t.root, p))
    ensures WalkError(t.root, p) == None <==> HasDir(t, p)
  {
  }

  lemma MissingEntry(t: Tree, p: Path, d: Directory, q: Path)
    requires At(t.root, p) == Some(Dir(d)) && Above(p, q) && q[|p|] !in d.entries
    ensures View(t, q) == Absent
  {
    var rest := q[|p|..];
    AtConcat(t.root, p, rest);
    assert p + rest == q;
  }

  lemma OnlyEntriesShow(overlay: Tree, p: Path, d: Directory, q: Path)
    requires At(overlay.root, p) == Some(Dir(d)) && Above(p, q) && q[|p|] !in d.entries
    ensures View(overlay, q) == Absent && !BelowLeaf(overlay, q)
  {
    hide View, At;
    MissingEntry(overlay, p, d, q);
    forall r | Above(r, q) ensures !HasLeaf(overlay, r) {
      AncestorsAreComparable(r, p, q);
      ViewOfEntry(overlay, p);
      if |p| < |r| {
        assert r[|p|] == q[..|r|][|p|];
        MissingEntry(overlay, p, d, r);
      } else if r != p && HasLeaf(overlay, r) {
        NothingBelow(overlay, r, p);
      }
    }
  }

  /** The overlay fits through the entry `n` of the directory `p`. */
  ghost predicate FitsAt(base: Tree, overlay: Tree, p: Path, n: Name) {
    forall q :: Prefix(p + [n], q) && HasDir(overlay, q) ==> !HasLeaf(base, q)
  }

  lemma FitsEntryByEntry(base: Tree, overlay: Tree, p: Path, d: Directory)
    requires At(overlay.root, p) == Some(Dir(d))
    ensures Fits(base, overlay, p) <==> forall n :: n in d.entries ==> FitsAt(base, overlay, p, n)
  {
    hide View;
    if Fits(base, overlay, p) {
      forall n, q | Prefix(p + [n], q) && HasDir(overlay, q) ensures !HasLeaf(base, q) {
        ChildPath(p, n, q);
      }
    }
    if forall n :: n in d.entries ==> FitsAt(base, overlay, p, n) {
      forall q | Above(p, q) && HasDir(overlay, q) ensures !HasLeaf(base, q) {
        ChildPath(p, q[|p|], q);
        if q[|p|] !in d.entries {
          OnlyEntriesShow(overlay, p, d, q);
        }
      }
    }
  }

  lemma DirectoryFits(start: Tree, mid: Tree, before: Tree, overlay: Tree, p: Path, names: set<Name>, n: Name,
                      node: Node)
    requires LayeredBelow(mid, before, overlay, p, names) && n !in names
    requires Restatted(start, mid, p + [n], node) && !HasLeaf(before, p + [n])
    ensures FitsAt(before, overlay, p, n) <==> Fits(start, overlay, p + [n])
  {
    hide View;
    forall q | Above(p + [n], q) ensures View(start, q) == View(before, q) {
      ChildPath(p, n, q);
      assert View(mid, q) == View(before, q);
    }
    forall q ensures Prefix(p + [n], q) <==> q == p + [n] || Above(p + [n], q) {
    }
  }

  lemma LeafFits(base: Tree, overlay: Tree, p: Path, n: Name)
    requires !HasDir(overlay, p + [n])
    ensures FitsAt(base, overlay, p, n)
  {
    hide View;
    forall q | Prefix(p + [n], q) ensures !HasDir(overlay, q) {
      if q != p + [n] {
        NothingBelow(overlay, p + [n], q);
      }
    }
  }

  lemma EntryFacts(mid: Tree, before: Tree, overlay: Tree, p: Path, names: set<Name>, n: Name, d: Directory)
    requires LayeredBelow(mid, before, overlay, p, names) && n !in names
    requires At(overlay.root, p) == Some(Dir(d)) && n in d.entries && HasDir(before, p)
    ensures View(mid, p + [n]) == View(before, p + [n])
    ensures SplitError(mid.root, p + [n]) == None && HasDir(mid, p)
    ensures At(overlay.root, p + [n]) == Some(d.entries[n]) && SplitError(overlay.root, p + [n]) == None
  {
    ChildPath(p, n, p + [n]);
    ChildPath(p, n, p);
    assert View(mid, p) == View(before, p);
    SplitNeedsParent(mid, p + [n]);
    SplitNeedsParent(overlay, p + [n]);
    AtConcat(overlay.root, p, [n]);
  }

  lemma ReplacedByLeaf(t': Tree, cleared: Tree, t: Tree, p: Path, node: Node)
    requires BecamePlaced(cleared, t, p, Absent) && BecamePlaced(t', cleared, p, node)
    ensures BecamePlaced(t', t, p, node)
  {
    hide View;
    forall q ensures View(t', q) == Placed(t, p, node, q) {
      assert View(cleared, q) == Placed(t, p, Absent, q);
    }
  }

  /** One directory of ApplyTreeOverlay; `d` is the overlay's directory at `prefix`. */
  method LayDirectory(base: FileSystem, prefix: Path, overlay: FileSystem, ghost d: Directory) returns (r: Outcome)
    requires base != overlay && Valid(base.Value()) && Valid(overlay.Value())
    requires At(overlay.root, prefix) == Some(Dir(d)) && HasDir(base.Value(), prefix)
    modifies base
    ensures Valid(base.Value()) && old(base.leaves) <= base.leaves
    ensures r.Ok? <==> Fits(old(base.Value()), overlay.Value(), prefix)
    ensures r.Ok? ==> LayeredBelow(base.Value(), old(base.Value()), overlay.Value(), prefix, d.entries.Keys)
    decreases d
  {
    hide View, At, Fits, FitsAt, LayeredBelow, Restatted, Valid;
    ghost var before, over := base.Value(), overlay.Value();
    FitsEntryByEntry(before, over, prefix, d);
    ViewOfEntry(over, prefix);
    var directory := GetDir(overlay.root, prefix);
    var names := SortNames(directory.entries.Keys);
    ghost var done := {};
    NothingLayered(before, over, prefix);
    for i := 0 to |names|
      invariant Valid(base.Value()) && old(base.leaves) <= base.leaves
      invariant forall n :: n in done <==> n in names[..i]
      invariant LayeredBelow(base.Value(), before, over, prefix, done)
      invariant forall n :: n in done ==> FitsAt(before, over, prefix, n)
    {
      var name := names[i];
      assert name in names;
      NotYetListed(names, i);
      r := LayEntry(base, prefix, overlay, name, d, before, done);
      if r.Err? {
        return;
      }
      done := done + {name};
    }
    assert names[..|names|] == names;
    assert done == d.entries.Keys;
    r := Ok;
  }

  /** One round of the loop of LayDirectory. */
  method LayEntry(base: FileSystem, prefix: Path, overlay: FileSystem, name: Name, ghost d: Directory,
                  ghost before: Tree, ghost done: set<Name>)
      returns (r: Outcome)
    requires base != overlay && Valid(base.Value()) && Valid(overlay.Value())
    requires At(overlay.root, prefix) == Some(Dir(d)) && HasDir(before, prefix)
    requires name in d.entries && name !in done
    requires LayeredBelow(base.Value(), before, overlay.Value(), prefix, done)
    modifies base
    ensures Valid(base.Value()) && old(base.leaves) <= base.leaves
    ensures r.Ok? <==> FitsAt(before, overlay.Value(), prefix, name)
    ensures r.Ok? ==> LayeredBelow(base.Value(), before, overlay.Value(), prefix, done + {name})
    decreases d, 0
  {
    hide View, At, Fits, FitsAt, LayeredBelow, Restatted, Valid, WalkError;
    ghost var over, mid := overlay.Value(), base.Value();
    var child := FileHandle(prefix + [name]);
    EntryFacts(mid, before, over, prefix, done, name, d);
    ViewOfEntry(over, child.path);
    ViewOfEntry(mid, child.path);
    match At(overlay.root, child.path).value {
      case Dir(sub) =>
        if At(base.root, child.path) == None {
          r := child.InsertInTree(base, sub.stat);
          InsertedWhereNothingWas(base.Value(), mid, child.path, DirNode(sub.stat));
        } else {
          r := child.UpdateInTree(base, sub.stat);
          if r.Err? {
            Misfit(before, over, prefix, name);
            return;
          }
          UpdateRestats(base.Value(), mid, child.path, DirNode(sub.stat));
        }
        ghost var start := base.Value();
        DirectoryFits(start, mid, before, over, prefix, done, name, DirNode(sub.stat));
        RestattedIsDir(start, mid, child.path, DirNode(sub.stat));
        r := LayDirectory(base, child.path, overlay, sub);
        if r.Ok? {
          DirectoryLayered(base.Value(), start, mid, before, over, prefix, done, name, sub);
        }
      case LeafId(_) =>
        r := child.RemoveInTree(base);
        ghost var cleared := base.Value();
        ClearedKeepsParent(cleared, mid, prefix, name);
        r := child.CopyFromTree(base, overlay, child.path);
        ReplacedByLeaf(base.Value(), cleared, mid, child.path, View(over, child.path));
        LeafLayered(base.Value(), mid, before, over, prefix, done, name);
        LeafFits(before, over, prefix, name);
    }
  }

  lemma NothingLayered(t: Tree, overlay: Tree, p: Path)
    ensures LayeredBelow(t, t, overlay, p, {})
  {
  }

  lemma NotYetListed(names: seq<Name>, i: nat)
    requires Sorted(names) && i < |names|
    ensures names[i] !in names[..i]
  {
    forall j | 0 <= j < i ensures names[j] != names[i] {
      LessIsStrict(names[j], names[i]);
    }
  }

  lemma Misfit(base: Tree, overlay: Tree, p: Path, n: Name)
    requires HasDir(overlay, p + [n]) && HasLeaf(base, p + [n])
    ensures !FitsAt(base, overlay, p, n)
  {
    hide View;
    assert Prefix(p + [n], p + [n]);
  }

  lemma UpdateRestats(t': Tree, t: Tree, p: Path, node: Node)
    requires forall q :: View(t', q) == if q == p then node else View(t, q)
    ensures Restatted(t', t, p, node)
  {
  }

  lemma RestattedIsDir(t': Tree, t: Tree, p: Path, node: Node)
    requires Restatted(t', t, p, node)
    ensures View(t', p) == node
  {
  }

  lemma ClearedKeepsParent(t': Tree, t: Tree, p: Path, n: Name)
    requires BecamePlaced(t', t, p + [n], Absent) && HasDir(t, p)
    ensures SplitError(t'.root, p + [n]) == None
  {
    ChildPath(p, n, p);
    assert View(t', p) == View(t, p);
    SplitNeedsParent(t', p + [n]);
  }

  method ApplyTreeOverlay(base: FileSystem, overlay: FileSystem) returns (r: Outcome)
    requires base != overlay && Valid(base.Value()) && Valid(overlay.Value())
    modifies base
    ensures Valid(base.Value()) && old(base.leaves) <= base.leaves
    ensures r.Ok? <==> Fits(old(base.Value()), overlay.Value(), [])
    ensures r.Ok? ==> forall q :: View(base.Value(), q) == Layered(old(base.Value()), overlay.Value(), q)
  {
    hide View, Layered, Fits, Valid;
    ghost var before, over := base.Value(), overlay.Value();
    RootIsDirectory(before);
    r := LayDirectory(base, [], overlay, overlay.root);
    if r.Ok? {
      forall q ensures View(base.Value(), q) == Layered(before, over, q) {
        WholeTreeLayered(before, over, q);
        assert View(base.Value(), q) == if Above([], q) && q[0] in overlay.root.entries.Keys
                                        then Layered(before, over, q) else View(before, q);
      }
    }
  }

  lemma WholeTreeLayered(base: Tree, overlay: Tree, q: Path)
    ensures q == [] || q[0] !in overlay.root.entries ==> Layered(base, overlay, q) == View(base, q)
  {
    if q != [] && q[0] !in overlay.root.entries {
      OnlyEntriesShow(overlay, [], overlay.root, q);
    }
  }

  /** Layering twice is layering once, and the second time it always goes through. */
  lemma LayeringIsIdempotent(base: Tree, overlay: Tree, once: Tree)
    requires forall q :: View(once, q) == Layered(base, overlay, q)
    ensures Fits(once, overlay, [])
    ensures forall q :: Layered(once, overlay, q) == View(once, q)
  {
    hide View;
    forall q ensures Layered(once, overlay, q) == View(once, q) {
      assert View(once, q) == Layered(base, overlay, q);
    }
  }

}
