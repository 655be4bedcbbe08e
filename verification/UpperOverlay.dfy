/** Laying the upper directory of an overlay mount over a tree.

    In the upper directory a whiteout hides what is below it, an opaque directory replaces, any other directory
    merges, and a file or symbolic link replaces.  Seen says what this makes visible at each path.  The directory is
    read in no particular order: the loop picks the next entry arbitrarily, so what is proved holds for every order.
  */
module UpperOverlay {
  import opened Basics
  import opened Paths
  import opened Trees
  import opened Overlay

  datatype Upper =
    | Whiteout
    | UpperFile(leaf: Leaf)
    | UpperDir(stat: Stat, opaqueDir: bool, entries: map<Name, Upper>)

  // ---- What an overlay mount shows -----------------------------------------------------------------

  function Lookup(u: Upper, q: Path): Option<Upper> {
    if q == [] then Some(u)
    else if u.UpperDir? && q[0] in u.entries then Lookup(u.entries[q[0]], q[1..])
    else None
  }

  /** At `q` the upper directory hides everything the lower tree has below that path. */
  predicate Hides(u: Upper, q: Path) {
    var found := Lookup(u, q);
    found.Some? && (found.value.UpperDir? ==> found.value.opaqueDir)
  }

  ghost predicate Covered(u: Upper, q: Path) {
    exists r :: r != [] && Above(r, q) && Hides(u, r)
  }

  /** What is visible at a path `q` below the mount point `p`. */
  ghost function Seen(u: Upper, lower: Tree, p: Path, q: Path): Node
    requires Above(p, q)
  {
    match Lookup(u, q[|p|..])
    case Some(Whiteout) => Absent
    case Some(UpperFile(leaf)) => LeafNode(leaf)
    case Some(UpperDir(stat, _, _)) => DirNode(stat)
    case None => if Covered(u, q[|p|..]) then Absent else View(lower, q)
  }

  /** A directory of the upper layer that merges with a leaf of the lower one: the case the source refuses. */
  ghost predicate LandsOnLeaf(u: Upper, lower: Tree, p: Path, q: Path)
    requires Above(p, q)
  {
    var found := Lookup(u, q[|p|..]);
    && found.Some? && found.value.UpperDir? && !found.value.opaqueDir
    && !Covered(u, q[|p|..]) && HasLeaf(lower, q)
  }

  ghost predicate UpperFits(u: Upper, lower: Tree, p: Path) {
    forall q :: Above(p, q) ==> !LandsOnLeaf(u, lower, p, q)
  }

  ghost predicate UpperFitsAt(u: Upper, lower: Tree, p: Path, n: Name) {
    forall q :: Above(p, q) && q[|p|] == n ==> !LandsOnLeaf(u, lower, p, q)
  }

  ghost predicate SeenBelow(now: Tree, before: Tree, u: Upper, p: Path, names: set<Name>) {
    forall q :: View(now, q) == if Above(p, q) && q[|p|] in names then Seen(u, before, p, q) else View(before, q)
  }

  /** What a path finds in the upper directory. */
  lemma LookupFollowsEntries(u: Upper, name: Name, r: Path)
    ensures Lookup(u, []) == Some(u)
    ensures Lookup(u, [name] + r)
         == if u.UpperDir? && name in u.entries then Lookup(u.entries[name], r) else None
  {
    assert ([name] + r)[1..] == r;
  }

  /** A whiteout, a file or an opaque directory hides what the lower tree has below it. */
  predicate HidesBelow(found: Option<Upper>) {
    found.Some? && (found.value.Whiteout? || found.value.UpperFile? || found.value.opaqueDir)
  }

  /** The mount shows what the upper directory has; where it has nothing, it shows the lower tree, save below a path
      that is hidden.  It cannot be laid where one of its plain directories would merge with a leaf. */
  lemma MountShows(now: Tree, lower: Tree, u: Upper, q: Path)
    requires q != [] && View(now, q) == Seen(u, lower, [], q)
    ensures Lookup(u, q) == Some(Whiteout) ==> View(now, q) == Absent
    ensures forall leaf :: Lookup(u, q) == Some(UpperFile(leaf)) ==> View(now, q) == LeafNode(leaf)
    ensures forall stat, opaqueDir, entries :: Lookup(u, q) == Some(UpperDir(stat, opaqueDir, entries)) ==>
              View(now, q) == DirNode(stat)
    ensures Lookup(u, q) == None ==>
              View(now, q) == if exists k :: 0 < k < |q| && HidesBelow(Lookup(u, q[..k])) then Absent
                              else View(lower, q)
    ensures LandsOnLeaf(u, lower, [], q)
       <==> && (exists stat, entries :: Lookup(u, q) == Some(UpperDir(stat, false, entries)))
            && (forall k :: 0 < k < |q| ==> !HidesBelow(Lookup(u, q[..k]))) && View(lower, q).LeafNode?
  {
    hide View, Lookup;
    assert q[0..] == q;
    if Covered(u, q) {
      var r :| r != [] && Above(r, q) && Hides(u, r);
      assert q[..|r|] == r;
    }
    if k :| 0 < k < |q| && HidesBelow(Lookup(u, q[..k])) {
      assert Above(q[..k], q) && Hides(u, q[..k]);
    }
  }

  // ---- One entry -----------------------------------------------------------------------------------

  lemma EntryLookup(u: Upper, n: Name, r: Path)
    requires u.UpperDir? && n in u.entries
    ensures Lookup(u, [n] + r) == Lookup(u.entries[n], r)
    ensures Hides(u, [n] + r) == Hides(u.entries[n], r)
    ensures r != [] ==> (Covered(u, [n] + r) <==> Hides(u.entries[n], []) || Covered(u.entries[n], r))
    ensures r == [] ==> !Covered(u, [n] + r)
  {
    var s, q := u.entries[n], [n] + r;
    assert q[1..] == r;
    if Covered(u, q) {
      var a :| a != [] && Above(a, q) && Hides(u, a);
      assert a[0] == q[..|a|][0] == n && a[1..] == q[..|a|][1..] == r[..|a| - 1];
      assert a == [n] + a[1..];
      assert a[1..] != [] ==> Above(a[1..], r) && Hides(s, a[1..]);
    }
    if r != [] && Hides(s, []) {
      assert Above([n], q) && Lookup(u, [n]) == Lookup(s, []);
    }
    if Covered(s, r) {
      var a :| a != [] && Above(a, r) && Hides(s, a);
      assert ([n] + a)[1..] == a && q[..|a| + 1] == [n] + a;
      assert Above([n] + a, q) && Hides(u, [n] + a);
    }
  }

  lemma BelowEntry(p: Path, n: Name, q: Path)
    requires Prefix(p + [n], q)
    ensures Above(p, q) && q[|p|] == n && q[|p|..] == [n] + q[|p + [n]|..]
    ensures q == p + [n] <==> q[|p + [n]|..] == []
    ensures Above(p + [n], q) <==> q[|p + [n]|..] != []
  {
    ChildPath(p, n, q);
  }

  /** A whiteout or file takes the place of whatever the lower tree has. */
  lemma NodeSeen(now: Tree, mid: Tree, before: Tree, u: Upper, p: Path, names: set<Name>, n: Name)
    requires SeenBelow(mid, before, u, p, names) && n !in names
    requires u.UpperDir? && n in u.entries && !u.entries[n].UpperDir?
    requires BecamePlaced(now, mid, p + [n], match u.entries[n] case UpperFile(leaf) => LeafNode(leaf) case _ => Absent)
    ensures SeenBelow(now, before, u, p, names + {n})
    ensures UpperFitsAt(u, before, p, n)
  {
    hide View, Covered, Hides, Lookup;
    var s := u.entries[n];
    forall q | Prefix(p + [n], q)
      ensures Above(p, q) && !LandsOnLeaf(u, before, p, q)
      ensures Seen(u, before, p, q) == if s.UpperFile? && q == p + [n] then LeafNode(s.leaf) else Absent
    {
      BelowEntry(p, n, q);
      EntryLookup(u, n, q[|p + [n]|..]);
      NonDirectory(s, q[|p + [n]|..]);
    }
    forall q ensures Prefix(p + [n], q) <==> Above(p, q) && q[|p|] == n {
      ChildPath(p, n, q);
    }
    forall q ensures View(now, q) == if Above(p, q) && q[|p|] in names + {n}
                                     then Seen(u, before, p, q) else View(before, q) {
      assert View(mid, q) == if Above(p, q) && q[|p|] in names then Seen(u, before, p, q) else View(before, q);
      assert Prefix(p + [n], q) <==> q == p + [n] || Above(p + [n], q);
    }
  }

  lemma NonDirectory(s: Upper, r: Path)
    requires !s.UpperDir?
    ensures Hides(s, [])
    ensures Lookup(s, r) == if r == [] then Some(s) else None
  {
  }

  /** The tree once the directory `n` itself is in place: emptied if it replaces, otherwise with the lower entries. */
  ghost predicate DirectoryReady(start: Tree, mid: Tree, before: Tree, p: Path, n: Name, s: Upper)
    requires s.UpperDir?
  {
    && View(start, p + [n]) == DirNode(s.stat)
    && (forall q :: Above(p + [n], q) ==> View(start, q) == if s.opaqueDir then Absent else View(before, q))
    && (forall q :: !Prefix(p + [n], q) ==> View(start, q) == View(mid, q))
  }

  lemma DirectorySeen(now: Tree, start: Tree, mid: Tree, before: Tree, u: Upper, p: Path, names: set<Name>, n: Name)
    requires SeenBelow(mid, before, u, p, names) && n !in names
    requires u.UpperDir? && n in u.entries && u.entries[n].UpperDir?
    requires DirectoryReady(start, mid, before, p, n, u.entries[n])
    requires SeenBelow(now, start, u.entries[n], p + [n], u.entries[n].entries.Keys)
    ensures SeenBelow(now, before, u, p, names + {n})
  {
    hide View, Covered, Hides, Lookup;
    var s := u.entries[n];
    forall q ensures View(now, q) == if Above(p, q) && q[|p|] in names + {n}
                                     then Seen(u, before, p, q) else View(before, q) {
      ChildPath(p, n, q);
      assert View(mid, q) == if Above(p, q) && q[|p|] in names then Seen(u, before, p, q) else View(before, q);
      assert View(now, q) == if Above(p + [n], q) && q[|p + [n]|] in s.entries.Keys
                             then Seen(s, start, p + [n], q) else View(start, q);
      if Prefix(p + [n], q) {
        BelowEntry(p, n, q);
        EntryLookup(u, n, q[|p + [n]|..]);
        DirectoryItself(s);
        if Above(p + [n], q) && q[|p + [n]|] !in s.entries {
          NothingInUpper(s, q[|p + [n]|..]);
        }
      }
    }
  }

  lemma DirectoryItself(s: Upper)
    requires s.UpperDir?
    ensures Lookup(s, []) == Some(s) && (Hides(s, []) <==> s.opaqueDir)
  {
  }

  lemma NothingInUpper(s: Upper, r: Path)
    requires s.UpperDir? && r != [] && r[0] !in s.entries
    ensures Lookup(s, r) == None && !Covered(s, r)
  {
    forall a | a != [] && Above(a, r) ensures !Hides(s, a) {
      assert a[0] == r[..|a|][0];
    }
  }

  lemma DirectoryFitsUpper(start: Tree, mid: Tree, before: Tree, u: Upper, p: Path, n: Name)
    requires u.UpperDir? && n in u.entries && u.entries[n].UpperDir?
    requires DirectoryReady(start, mid, before, p, n, u.entries[n])
    requires u.entries[n].opaqueDir || !HasLeaf(before, p + [n])
    ensures UpperFitsAt(u, before, p, n) <==> UpperFits(u.entries[n], start, p + [n])
  {
    hide View, Covered, Hides, Lookup;
    var s := u.entries[n];
    forall q | Above(p, q) && q[|p|] == n
      ensures LandsOnLeaf(u, before, p, q) <==> Above(p + [n], q) && LandsOnLeaf(s, start, p + [n], q)
    {
      ChildPath(p, n, q);
      BelowEntry(p, n, q);
      EntryLookup(u, n, q[|p + [n]|..]);
      DirectoryItself(s);
    }
    forall q | Above(p + [n], q) ensures Above(p, q) && q[|p|] == n {
      ChildPath(p, n, q);
    }
  }

  lemma LandingFails(before: Tree, u: Upper, p: Path, n: Name)
    requires u.UpperDir? && n in u.entries && u.entries[n].UpperDir? && !u.entries[n].opaqueDir
    requires HasLeaf(before, p + [n])
    ensures !UpperFitsAt(u, before, p, n)
  {
    hide View;
    ChildPath(p, n, p + [n]);
    BelowEntry(p, n, p + [n]);
    EntryLookup(u, n, []);
    assert LandsOnLeaf(u, before, p, p + [n]);
  }

  lemma FitsEveryEntry(u: Upper, before: Tree, p: Path)
    requires u.UpperDir?
    ensures UpperFits(u, before, p) <==> forall n :: n in u.entries ==> UpperFitsAt(u, before, p, n)
  {
    hide View;
    forall q | Above(p, q) && q[|p|] !in u.entries ensures !LandsOnLeaf(u, before, p, q) {
      NothingInUpper(u, q[|p|..]);
    }
    forall q | Above(p, q) && LandsOnLeaf(u, before, p, q) ensures !UpperFitsAt(u, before, p, q[|p|]) {
    }
  }

  lemma CurrentEntry(mid: Tree, before: Tree, u: Upper, p: Path, names: set<Name>, n: Name)
    requires SeenBelow(mid, before, u, p, names) && n !in names && HasDir(before, p)
    ensures forall q :: Prefix(p + [n], q) ==> View(mid, q) == View(before, q)
    ensures HasDir(mid, p) && SplitError(mid.root, p + [n]) == None
  {
    hide View;
    forall q | Prefix(p + [n], q) ensures View(mid, q) == View(before, q) {
      ChildPath(p, n, q);
    }
    ChildPath(p, n, p);
    assert View(mid, p) == View(before, p);
    SplitNeedsParent(mid, p + [n]);
  }

  lemma ReplacedByDirectory(start: Tree, cleared: Tree, mid: Tree, before: Tree, p: Path, n: Name, s: Upper)
    requires s.UpperDir? && (s.opaqueDir || View(before, p + [n]) == Absent)
    requires BecamePlaced(cleared, mid, p + [n], Absent) && BecamePlaced(start, cleared, p + [n], DirNode(s.stat))
    ensures DirectoryReady(start, mid, before, p, n, s)
  {
    hide View;
    ReplacedByLeaf(start, cleared, mid, p + [n], DirNode(s.stat));
    assert View(start, p + [n]) == Placed(mid, p + [n], DirNode(s.stat), p + [n]);
    forall q | Above(p + [n], q) ensures View(start, q) == if s.opaqueDir then Absent else View(before, q) {
      if !s.opaqueDir {
        NothingBelow(before, p + [n], q);
      }
    }
  }

  lemma MergedWithDirectory(start: Tree, mid: Tree, before: Tree, p: Path, n: Name, s: Upper)
    requires s.UpperDir? && !s.opaqueDir
    requires forall q :: View(start, q) == if q == p + [n] then DirNode(s.stat) else View(mid, q)
    requires forall q :: Prefix(p + [n], q) ==> View(mid, q) == View(before, q)
    ensures DirectoryReady(start, mid, before, p, n, s)
  {
    hide View;
    assert View(start, p + [n]) == DirNode(s.stat);
  }

  lemma ReadyHasDir(start: Tree, mid: Tree, before: Tree, p: Path, n: Name, s: Upper)
    requires s.UpperDir? && DirectoryReady(start, mid, before, p, n, s)
    ensures HasDir(start, p + [n])
  {
  }

  // ---- The traversal -------------------------------------------------------------------------------

  method ApplyOverlayUpper(tree: FileSystem, upper: Upper) returns (r: Outcome)
    requires upper.UpperDir? && Valid(tree.Value())
    modifies tree
    ensures Valid(tree.Value()) && old(tree.leaves) <= tree.leaves
    ensures r.Ok? <==> UpperFits(upper, old(tree.Value()), [])
    ensures r.Ok? ==> forall q :: q != [] ==> View(tree.Value(), q) == Seen(upper, old(tree.Value()), [], q)
    ensures r.Ok? ==> View(tree.Value(), []) == View(old(tree.Value()), [])
  {
    hide View, Seen, UpperFits, Valid;
    ghost var before := tree.Value();
    RootIsDirectory(before);
    r := Recurse(tree, [], upper);
    if r.Ok? {
      forall q | q != [] ensures View(tree.Value(), q) == Seen(upper, before, [], q) {
        assert View(tree.Value(), q) == if Above([], q) && q[0] in upper.entries.Keys
                                        then Seen(upper, before, [], q) else View(before, q);
        UntouchedSeen(upper, before, q);
      }
      assert View(tree.Value(), []) == View(before, []);
    }
  }

  lemma UntouchedSeen(u: Upper, before: Tree, q: Path)
    requires u.UpperDir? && q != []
    ensures q[0] !in u.entries ==> Seen(u, before, [], q) == View(before, q)
  {
    if q[0] !in u.entries {
      assert q[0..] == q;
      NothingInUpper(u, q);
    }
  }

  method Recurse(tree: FileSystem, prefix: Path, upper: Upper) returns (r: Outcome)
    requires upper.UpperDir? && Valid(tree.Value()) && HasDir(tree.Value(), prefix)
    modifies tree
    ensures Valid(tree.Value()) && old(tree.leaves) <= tree.leaves
    ensures r.Ok? <==> UpperFits(upper, old(tree.Value()), prefix)
    ensures r.Ok? ==> SeenBelow(tree.Value(), old(tree.Value()), upper, prefix, upper.entries.Keys)
    decreases upper, 1
  {
    hide View, UpperFits, UpperFitsAt, SeenBelow, Valid;
    ghost var before := tree.Value();
    FitsEveryEntry(upper, before, prefix);
    var rest := upper.entries.Keys;
    ghost var done := {};
    NothingSeen(before, upper, prefix);
    while rest != {}
      invariant Valid(tree.Value()) && old(tree.leaves) <= tree.leaves
      invariant done + rest == upper.entries.Keys && done !! rest
      invariant SeenBelow(tree.Value(), before, upper, prefix, done)
      invariant forall n :: n in done ==> UpperFitsAt(upper, before, prefix, n)
    {
      var name :| name in rest;
      r := ApplyEntry(tree, prefix, name, upper, before, done);
      if r.Err? {
        return;
      }
      rest, done := rest - {name}, done + {name};
    }
    assert done == upper.entries.Keys;
    r := Ok;
  }

  lemma NothingSeen(t: Tree, u: Upper, p: Path)
    ensures SeenBelow(t, t, u, p, {})
  {
  }

  method ApplyEntry(tree: FileSystem, prefix: Path, name: Name, upper: Upper, ghost before: Tree, ghost done: set<Name>)
      returns (r: Outcome)
    requires upper.UpperDir? && name in upper.entries && name !in done
    requires Valid(tree.Value()) && HasDir(before, prefix)
    requires SeenBelow(tree.Value(), before, upper, prefix, done)
    modifies tree
    ensures Valid(tree.Value()) && old(tree.leaves) <= tree.leaves
    ensures r.Ok? <==> UpperFitsAt(upper, before, prefix, name)
    ensures r.Ok? ==> SeenBelow(tree.Value(), before, upper, prefix, done + {name})
    decreases upper, 0
  {
    hide View, UpperFits, UpperFitsAt, SeenBelow, Valid, At, WalkError, DirectoryReady;
    ghost var mid := tree.Value();
    var child := FileHandle(prefix + [name]);
    CurrentEntry(mid, before, upper, prefix, done, name);
    match upper.entries[name] {
      case Whiteout =>
        r := child.RemoveInTree(tree);
        NodeSeen(tree.Value(), mid, before, upper, prefix, done, name);
      case UpperFile(leaf) =>
        r := child.RemoveInTree(tree);
        ghost var cleared := tree.Value();
        ClearedKeepsParent(cleared, mid, prefix, name);
        r := child.PlaceLeaf(tree, leaf);
        ReplacedByLeaf(tree.Value(), cleared, mid, child.path, LeafNode(leaf));
        NodeSeen(tree.Value(), mid, before, upper, prefix, done, name);
      case UpperDir(stat, opaqueDir, _) =>
        ghost var s := upper.entries[name];
        ViewOfEntry(mid, child.path);
        if opaqueDir || At(tree.root, child.path) == None {
          r := child.RemoveInTree(tree);
          ghost var cleared := tree.Value();
          ClearedKeepsParent(cleared, mid, prefix, name);
          r := child.InsertInTree(tree, stat);
          ReplacedByDirectory(tree.Value(), cleared, mid, before, prefix, name, s);
        } else {
          r := child.UpdateInTree(tree, stat);
          if r.Err? {
            LandingFails(before, upper, prefix, name);
            return;
          }
          MergedWithDirectory(tree.Value(), mid, before, prefix, name, s);
        }
        ghost var start := tree.Value();
        DirectoryFitsUpper(start, mid, before, upper, prefix, name);
        ReadyHasDir(start, mid, before, prefix, name, s);
        r := Recurse(tree, child.path, upper.entries[name]);
        if r.Ok? {
          DirectorySeen(tree.Value(), start, mid, before, upper, prefix, done, name);
        }
    }
  }
}
