/** Importing a directory of files into a tree.

    Every entry is inserted, and an insertion replaces what was there: a directory of the source takes the place of the
    directory of that name in the tree, and what that one held is gone.  The source is read in no particular order, and
    a cancellation can stop it before any entry.
  */
module Import {
  import opened Basics
  import opened Paths
  import opened Trees

  /** A directory, file or symbolic link on disk, as it will be found in the tree. */
  datatype Source = SourceLeaf(leaf: Leaf) | SourceDir(stat: Stat, entries: map<Name, Source>)

  datatype ImportOutcome = Imported(paths: seq<Path>) | Stopped | Failed(error: RepoError)

  // ---- What an import makes of a tree ----------------------------------------------------------------

  function Find(s: Source, r: Path): Option<Source> {
    if r == [] then Some(s)
    else if s.SourceDir? && r[0] in s.entries then Find(s.entries[r[0]], r[1..])
    else None
  }

  function SourceNode(s: Source, r: Path): Node {
    match Find(s, r)
    case None => Absent
    case Some(SourceLeaf(leaf)) => LeafNode(leaf)
    case Some(SourceDir(stat, _)) => DirNode(stat)
  }

  predicate IsFile(s: Source, r: Path) {
    Find(s, r).Some? && Find(s, r).value.SourceLeaf?
  }

  /** The entries `names` of the source are in the tree at `p`, with nothing else in their place. */
  ghost predicate ImportedBelow(now: Tree, before: Tree, s: Source, p: Path, names: set<Name>) {
    forall q :: View(now, q) == if Above(p, q) && q[|p|] in names then SourceNode(s, q[|p|..]) else View(before, q)
  }

  /** The paths are those of the files among the entries `names`, each once. */
  ghost predicate ListsFiles(paths: seq<Path>, s: Source, names: set<Name>) {
    && (forall r :: r in paths <==> r != [] && r[0] in names && IsFile(s, r))
    && forall i, j :: 0 <= i < j < |paths| ==> paths[i] != paths[j]
  }

  /** The view after an optional source has been imported at the root. */
  function ImportedView(source: Option<Source>, before: Node, q: Path): Node {
    if source.Some? && source.value.SourceDir? && q != [] && q[0] in source.value.entries
    then SourceNode(source.value, q)
    else before
  }

  /** A file of the tree survives an import exactly if its topmost directory is not in the source, or the source has
      the same file. */
  lemma FileSurvivesImport(now: Tree, before: Tree, s: Source, q: Path)
    requires s.SourceDir? && ImportedBelow(now, before, s, [], s.entries.Keys) && HasLeaf(before, q)
    ensures View(now, q) == View(before, q) <==> q[0] !in s.entries || SourceNode(s, q) == View(before, q)
    ensures q[0] in s.entries && Find(s, q) == None ==> View(now, q) == Absent
  {
    hide View;
    assert q != [] by {
      RootIsDirectory(before);
    }
    assert q[0..] == q;
  }

  /** A tree after an import, entry by entry, and the files that are listed. */
  lemma ImportShows(now: Tree, before: Tree, s: Source, p: Path, paths: seq<Path>, r: Path)
    requires s.SourceDir? && r != []
    requires ImportedBelow(now, before, s, p, s.entries.Keys) && ListsFiles(paths, s, s.entries.Keys)
    ensures r[0] !in s.entries ==> View(now, p + r) == View(before, p + r) && r !in paths
    ensures r[0] in s.entries && Find(s, r) == None ==> View(now, p + r) == Absent && r !in paths
    ensures forall leaf :: Find(s, r) == Some(SourceLeaf(leaf)) ==> View(now, p + r) == LeafNode(leaf) && r in paths
    ensures forall stat, entries :: Find(s, r) == Some(SourceDir(stat, entries)) ==>
              View(now, p + r) == DirNode(stat) && r !in paths
    ensures forall q :: !(p <= q) || q == p ==> View(now, q) == View(before, q)
  {
    hide View;
    assert (p + r)[..|p|] == p && (p + r)[|p|] == r[0] && (p + r)[|p|..] == r;
  }

  /** What a path finds in the source. */
  lemma FindFollowsEntries(s: Source, name: Name, r: Path)
    ensures Find(s, []) == Some(s)
    ensures Find(s, [name] + r)
         == if s.SourceDir? && name in s.entries then Find(s.entries[name], r) else None
  {
    assert ([name] + r)[1..] == r;
  }

  // ---- One entry -------------------------------------------------------------------------------------

  lemma EntryOfSource(s: Source, n: Name, r: Path)
    requires s.SourceDir? && n in s.entries
    ensures Find(s, [n] + r) == Find(s.entries[n], r)
  {
    assert ([n] + r)[1..] == r;
  }

  lemma BelowChild(p: Path, n: Name, q: Path)
    ensures Prefix(p + [n], q) <==> Above(p, q) && q[|p|] == n
    ensures Prefix(p + [n], q) ==> q[|p|..] == [n] + q[|p| + 1..]
    ensures Prefix(p + [n], q) <==> q == p + [n] || Above(p + [n], q)
  {
    if Prefix(p + [n], q) {
      assert q[|p|] == q[..|p| + 1][|p|] && q[..|p|] == q[..|p| + 1][..|p|];
    }
    if Above(p, q) && q[|p|] == n {
      assert q[..|p| + 1] == p + [n];
    }
  }

  lemma LeafImported(now: Tree, mid: Tree, before: Tree, s: Source, p: Path, names: set<Name>, n: Name)
    requires ImportedBelow(mid, before, s, p, names) && s.SourceDir? && n in s.entries && s.entries[n].SourceLeaf?
    requires BecamePlaced(now, mid, p + [n], LeafNode(s.entries[n].leaf))
    ensures ImportedBelow(now, before, s, p, names + {n})
  {
    hide View;
    forall q ensures View(now, q) == if Above(p, q) && q[|p|] in names + {n} then SourceNode(s, q[|p|..])
                                     else View(before, q) {
      BelowChild(p, n, q);
      if Prefix(p + [n], q) {
        EntryOfSource(s, n, q[|p| + 1..]);
      }
    }
  }

  lemma DirectoryImported(now: Tree, start: Tree, mid: Tree, before: Tree, s: Source, p: Path, names: set<Name>,
                          n: Name)
    requires ImportedBelow(mid, before, s, p, names) && s.SourceDir? && n in s.entries && s.entries[n].SourceDir?
    requires BecamePlaced(start, mid, p + [n], DirNode(s.entries[n].stat))
    requires ImportedBelow(now, start, s.entries[n], p + [n], s.entries[n].entries.Keys)
    ensures ImportedBelow(now, before, s, p, names + {n})
  {
    hide View;
    var sub := s.entries[n];
    forall q ensures View(now, q) == if Above(p, q) && q[|p|] in names + {n} then SourceNode(s, q[|p|..])
                                     else View(before, q) {
      BelowChild(p, n, q);
      assert View(now, q) == if Above(p + [n], q) && q[|p| + 1] in sub.entries.Keys then SourceNode(sub, q[|p| + 1..])
                             else View(start, q);
      assert View(start, q) == Placed(mid, p + [n], DirNode(sub.stat), q);
      if Prefix(p + [n], q) {
        EntryOfSource(s, n, q[|p| + 1..]);
      }
    }
  }

  function Joined(n: Name, paths: seq<Path>): (joined: seq<Path>)
    ensures |joined| == |paths| && forall i :: 0 <= i < |paths| ==> joined[i] == [n] + paths[i]
  {
    seq(|paths|, i requires 0 <= i < |paths| => [n] + paths[i])
  }

  lemma FilesOfEntry(done: seq<Path>, paths: seq<Path>, s: Source, names: set<Name>, n: Name)
    requires s.SourceDir? && n in s.entries && n !in names && ListsFiles(done, s, names)
    requires s.entries[n].SourceLeaf? ==> paths == [[]]
    requires s.entries[n].SourceDir? ==> ListsFiles(paths, s.entries[n], s.entries[n].entries.Keys)
    ensures ListsFiles(done + Joined(n, paths), s, names + {n})
  {
    var joined := Joined(n, paths);
    var all := done + joined;
    forall r ensures r in joined <==> r != [] && r[0] == n && IsFile(s, r) {
      if r != [] && r[0] == n {
        assert r == [n] + r[1..];
        EntryOfSource(s, n, r[1..]);
        FilesOfSource(s.entries[n], r[1..]);
        if r[1..] in paths {
          var i :| 0 <= i < |paths| && paths[i] == r[1..];
          assert joined[i] == r;
        }
      }
      if r in joined {
        var i :| 0 <= i < |joined| && joined[i] == r;
        assert r[1..] == paths[i];
      }
    }
    forall i, j | 0 <= i < j < |all| ensures all[i] != all[j] {
      if i < |done| {
        assert all[i] in done;
        if j >= |done| {
          assert all[j] in joined;
        }
      } else {
        assert joined[i - |done|][1..] == paths[i - |done|] && joined[j - |done|][1..] == paths[j - |done|];
      }
    }
  }

  lemma FilesOfSource(s: Source, r: Path)
    ensures s.SourceLeaf? ==> (IsFile(s, r) <==> r == [])
    ensures s.SourceDir? && IsFile(s, r) ==> r != [] && r[0] in s.entries
  {
  }

  // ---- The traversal ---------------------------------------------------------------------------------

  method ImportDirectory(tree: FileSystem, prefix: Path, source: Source, mayCancel: bool) returns (r: ImportOutcome)
    requires source.SourceDir? && Valid(tree.Value()) && HasDir(tree.Value(), prefix)
    modifies tree
    ensures Valid(tree.Value()) && old(tree.leaves) <= tree.leaves
    ensures r.Imported? || (mayCancel && r.Stopped?)
    ensures r.Imported? ==> ImportedBelow(tree.Value(), old(tree.Value()), source, prefix, source.entries.Keys)
    ensures r.Imported? ==> ListsFiles(r.paths, source, source.entries.Keys)
    decreases source, 1
  {
    hide View, ImportedBelow, ListsFiles, Valid;
    ghost var before := tree.Value();
    var imported: seq<Path> := [];
    var rest := source.entries.Keys;
    ghost var done := {};
    NothingImported(before, source, prefix);
    while rest != {}
      invariant Valid(tree.Value()) && old(tree.leaves) <= tree.leaves
      invariant done + rest == source.entries.Keys && done !! rest
      invariant ImportedBelow(tree.Value(), before, source, prefix, done)
      invariant ListsFiles(imported, source, done)
    {
      if mayCancel {
        var cancelled: bool := *;
        if cancelled {
          return Stopped;
        }
      }
      var name :| name in rest;
      var entry := ImportEntry(tree, prefix, name, source, mayCancel, before, done);
      if !entry.Imported? {
        return entry;
      }
      FilesOfEntry(imported, entry.paths, source, done, name);
      imported := imported + Joined(name, entry.paths);
      rest, done := rest - {name}, done + {name};
    }
    assert done == source.entries.Keys;
    r := Imported(imported);
  }

  lemma NothingImported(t: Tree, s: Source, p: Path)
    ensures ImportedBelow(t, t, s, p, {}) && ListsFiles([], s, {})
  {
  }

  lemma StillADirectory(now: Tree, before: Tree, s: Source, p: Path, names: set<Name>, n: Name)
    requires ImportedBelow(now, before, s, p, names) && HasDir(before, p)
    ensures SplitError(now.root, p + [n]) == None
  {
    hide View;
    assert View(now, p) == View(before, p);
    assert Parent(p + [n]) == p;
    SplitNeedsParent(now, p + [n]);
  }

  /** Imports one entry and gives the paths of its files below it. */
  method ImportEntry(tree: FileSystem, prefix: Path, name: Name, source: Source, mayCancel: bool, ghost before: Tree,
                     ghost done: set<Name>)
      returns (r: ImportOutcome)
    requires source.SourceDir? && name in source.entries && name !in done
    requires Valid(tree.Value()) && HasDir(before, prefix)
    requires ImportedBelow(tree.Value(), before, source, prefix, done)
    modifies tree
    ensures Valid(tree.Value()) && old(tree.leaves) <= tree.leaves
    ensures r.Imported? || (mayCancel && r.Stopped?)
    ensures r.Imported? ==> ImportedBelow(tree.Value(), before, source, prefix, done + {name})
    ensures r.Imported? ==> if source.entries[name].SourceLeaf? then r.paths == [[]]
                            else ListsFiles(r.paths, source.entries[name], source.entries[name].entries.Keys)
    decreases source, 0
  {
    hide View, ImportedBelow, ListsFiles, Valid;
    ghost var mid := tree.Value();
    var target := FileHandle(prefix + [name]);
    StillADirectory(mid, before, source, prefix, done, name);
    match source.entries[name] {
      case SourceLeaf(leaf) =>
        var placed := target.PlaceLeaf(tree, leaf);
        match placed {
          case Err(error) =>
            return Failed(error);
          case Ok =>
        }
        LeafImported(tree.Value(), mid, before, source, prefix, done, name);
        r := Imported([[]]);
      case SourceDir(stat, _) =>
        var inserted := target.InsertInTree(tree, stat);
        match inserted {
          case Err(error) =>
            return Failed(error);
          case Ok =>
        }
        ghost var start := tree.Value();
        PlacedIsThere(start, mid, target.path, stat);
        r := ImportDirectory(tree, target.path, source.entries[name], mayCancel);
        if r.Imported? {
          DirectoryImported(tree.Value(), start, mid, before, source, prefix, done, name);
        }
    }
  }

  lemma PlacedIsThere(t': Tree, t: Tree, p: Path, stat: Stat)
    requires BecamePlaced(t', t, p, DirNode(stat))
    ensures HasDir(t', p)
  {
    hide View;
    assert View(t', p) == Placed(t, p, DirNode(stat), p);
  }

  /** Imports a directory at the root of the tree, if there is one. */
  method ImportIfDir(tree: FileSystem, source: Option<Source>, mayCancel: bool) returns (r: ImportOutcome)
    requires Valid(tree.Value())
    modifies tree
    ensures Valid(tree.Value()) && old(tree.leaves) <= tree.leaves
    ensures r.Imported? || (mayCancel && r.Stopped?)
    ensures r.Imported? ==> forall q :: View(tree.Value(), q) == ImportedView(source, View(old(tree.Value()), q), q)
    ensures r.Imported? ==>
              forall p :: p in r.paths <==> source.Some? && source.value.SourceDir? && IsFile(source.value, p)
  {
    hide View, Valid;
    ghost var before := tree.Value();
    if source.None? || source.value.SourceLeaf? {
      return Imported([]);
    }
    RootIsDirectory(before);
    r := ImportDirectory(tree, [], source.value, mayCancel);
    if r.Imported? {
      forall q ensures View(tree.Value(), q) == ImportedView(source, View(before, q), q) {
        assert q[0..] == q;
      }
      forall p {
        FilesOfSource(source.value, p);
      }
    }
  }
}
