/** The difference of two trees, as a recursive merge of sorted directory listings.

    A diff is specified without the traversal: Describes says which paths are reported with which kind, from the
    two flat views alone, and in which order.  Together the two fix the list (DiffIsUnique).
  */
module Diff {
  import opened Basics
  import opened Paths
  import opened Trees

  datatype Kind = Removed | Added | Modified

  datatype Change = Change(path: Path, kind: Kind)

  datatype Side = From | To {
    function Kind(): Kind {
      match this
      case From => Removed
      case To => Added
    }
  }

  predicate IsRegularOrSymlink(leaf: Leaf) {
    leaf.content.Regular? || leaf.content.Symlink?
  }

  predicate ContentMatches(a: Leaf, b: Leaf) {
    match (a.content, b.content)
    case (Regular(External(aId, aSize)), Regular(External(bId, bSize))) => aId == bId && aSize == bSize
    case (Regular(Inline(aBytes)), Regular(Inline(bBytes))) => aBytes == bBytes
    case (Symlink(aTarget), Symlink(bTarget)) => aTarget == bTarget
    case _ => false
  }

  /** Contents that are compared at all: the rest, such as a sparse file, match nothing, not even themselves. */
  predicate Comparable(content: Content) {
    content.Symlink? || (content.Regular? && (content.file.External? || content.file.Inline?))
  }

  /** Leaves match if and only if their contents are equal and comparable; the stat plays no part. */
  lemma MatchingIsEquality(a: Leaf, b: Leaf)
    ensures ContentMatches(a, b) <==> a.content == b.content && Comparable(a.content)
  {
  }

  // ---- What a diff is ----------------------------------------------------------------------------

  predicate Tracked(node: Node) {
    node.LeafNode? && IsRegularOrSymlink(node.leaf)
  }

  /** Going from `a` to `b` at one path is a change of the given kind. */
  predicate IsChange(a: Node, b: Node, kind: Kind) {
    match kind
    case Removed => Tracked(a) && !b.LeafNode?
    case Added => Tracked(b) && !a.LeafNode?
    case Modified => Tracked(a) && Tracked(b) && !ContentMatches(a.leaf, b.leaf)
  }

  /** The view of an optional subtree. */
  function SubView(leaves: seq<Leaf>, inode: Option<Inode>, p: Path): Node {
    match inode
    case None => Absent
    case Some(Dir(d)) => DirView(leaves, d, p)
    case Some(LeafId(_)) => if p == [] then NodeOf(leaves, inode) else Absent
  }

  ghost predicate InRange(leaves: seq<Leaf>, inode: Option<Inode>) {
    forall p :: !SubView(leaves, inode, p).Dangling?
  }

  function Entry(d: Directory, name: Name): Option<Inode> {
    if name in d.entries then Some(d.entries[name]) else None
  }

  /** The order in which changes are reported.

      Entries of a directory come in name order.  Where one side has a directory and the other a leaf, everything
      removed comes before everything added.
    */
  predicate Before(a: Change, b: Change)
    decreases |a.path|
  {
    if a.path == [] || b.path == [] then a.path != b.path && a.kind == Removed && b.kind == Added
    else if a.path[0] == b.path[0] then Before(a.(path := a.path[1..]), b.(path := b.path[1..]))
    else Less(a.path[0], b.path[0])
  }

  ghost predicate Ordered(changes: seq<Change>) {
    forall i, j :: 0 <= i < j < |changes| ==> Before(changes[i], changes[j])
  }

  /** Two subtrees with their leaf tables, placed at the path `at`. */
  datatype Pair = Pair(at: Path, fromLeaves: seq<Leaf>, from: Option<Inode>, toLeaves: seq<Leaf>, to: Option<Inode>)

  predicate Reported(pair: Pair, c: Change) {
    && Prefix(pair.at, c.path)
    && IsChange(SubView(pair.fromLeaves, pair.from, c.path[|pair.at|..]),
                SubView(pair.toLeaves, pair.to, c.path[|pair.at|..]),
                c.kind)
  }

  ghost predicate Describes(changes: seq<Change>, pair: Pair) {
    && Ordered(changes)
    && forall c :: c in changes <==> Reported(pair, c)
  }

  function Roots(from: Tree, to: Tree): Pair {
    Pair([], from.leaves, Some(Dir(from.root)), to.leaves, Some(Dir(to.root)))
  }

  ghost predicate IsDiff(changes: seq<Change>, from: Tree, to: Tree) {
    Describes(changes, Roots(from, to))
  }

  /** A diff reports exactly the changed paths, soundly and completely. */
  lemma DiffReports(changes: seq<Change>, from: Tree, to: Tree, c: Change)
    requires IsDiff(changes, from, to)
    ensures c in changes <==> IsChange(View(from, c.path), View(to, c.path), c.kind)
  {
    assert c.path[0..] == c.path;
    assert c in changes <==> Reported(Roots(from, to), c);
  }

  /** What is reported, by what the leaves hold.

      Regular files and symbolic links are reported, nothing else: as modified where both sides have one and the
      contents differ, or are of a kind that is never compared; as removed or added where the other side has no leaf at
      all.
    */
  lemma ChangesByContent(changes: seq<Change>, from: Tree, to: Tree, p: Path)
    requires IsDiff(changes, from, to) && Valid(from) && Valid(to)
    ensures forall a, b :: View(from, p) == LeafNode(a) && View(to, p) == LeafNode(b) ==>
              && (Change(p, Modified) in changes
                  <==> && (a.content.Regular? || a.content.Symlink?) && (b.content.Regular? || b.content.Symlink?)
                       && (|| a.content != b.content
                           || (a.content.Regular? && (a.content.file.ExternalNoVerity? || a.content.file.Sparse?))))
              && Change(p, Added) !in changes && Change(p, Removed) !in changes
    ensures forall a :: View(from, p) == LeafNode(a) && (View(to, p) == Absent || View(to, p).DirNode?) ==>
              && (Change(p, Removed) in changes <==> a.content.Regular? || a.content.Symlink?)
              && Change(p, Added) !in changes && Change(p, Modified) !in changes
    ensures forall b :: (View(from, p) == Absent || View(from, p).DirNode?) && View(to, p) == LeafNode(b) ==>
              && (Change(p, Added) in changes <==> b.content.Regular? || b.content.Symlink?)
              && Change(p, Removed) !in changes && Change(p, Modified) !in changes
    ensures !HasLeaf(from, p) && !HasLeaf(to, p) ==> forall kind :: Change(p, kind) !in changes
  {
    hide View, IsDiff;
    assert !View(from, p).Dangling? && !View(to, p).Dangling?;
    forall kind ensures Change(p, kind) in changes <==> IsChange(View(from, p), View(to, p), kind) {
      DiffReports(changes, from, to, Change(p, kind));
    }
  }

  /** So a link that points elsewhere, or a link in the place of a file, is reported. */
  lemma RetargetedLinkIsReported(changes: seq<Change>, from: Tree, to: Tree, p: Path, stat: Stat, stat': Stat,
                                 target: string, content: Content)
    requires IsDiff(changes, from, to) && Valid(from) && Valid(to)
    requires View(from, p) == LeafNode(Leaf(stat, Symlink(target))) && View(to, p) == LeafNode(Leaf(stat', content))
    requires content.Regular? || (content.Symlink? && content.target != target)
    ensures Change(p, Modified) in changes
  {
    hide View, IsDiff;
    ChangesByContent(changes, from, to, p);
  }

  // ---- Consequences of the order -----------------------------------------------------------------

  lemma {:induction false} BeforeIsStrict(a: Change, b: Change)
    ensures Before(a, b) ==> a.path != b.path && !Before(b, a)
    decreases |a.path|
  {
    if a.path != [] && b.path != [] {
      if a.path[0] == b.path[0] {
        BeforeIsStrict(a.(path := a.path[1..]), b.(path := b.path[1..]));
      } else {
        LessIsStrict(a.path[0], b.path[0]);
      }
    }
  }

  /** An ancestor is reported after its descendants only as an addition, before them only as a removal. */
  lemma {:induction false} BeforeAndAbove(a: Change, b: Change)
    requires Before(a, b)
    ensures Above(a.path, b.path) || Above(b.path, a.path) ==> a.kind == Removed && b.kind == Added
    decreases |a.path|
  {
    if a.path != [] && b.path != [] && a.path[0] == b.path[0] {
      var a', b' := a.(path := a.path[1..]), b.(path := b.path[1..]);
      BeforeAndAbove(a', b');
      assert Above(a.path, b.path) ==> a'.path == b.path[..|a.path|][1..];
      assert Above(b.path, a.path) ==> b'.path == a.path[..|b.path|][1..];
    } else if a.path != [] && b.path != [] {
      assert |a.path| <= |b.path| ==> b.path[..|a.path|][0] == b.path[0];
      assert |b.path| <= |a.path| ==> a.path[..|b.path|][0] == a.path[0];
    }
  }

  lemma EachPathOnce(changes: seq<Change>, i: nat, j: nat)
    requires Ordered(changes)
    requires i < |changes| && j < |changes| && changes[i].path == changes[j].path
    ensures i == j
  {
    if i < j {
      BeforeIsStrict(changes[i], changes[j]);
    } else if j < i {
      BeforeIsStrict(changes[j], changes[i]);
    }
  }

  /** Changes below different entries of one directory are ordered by entry name. */
  lemma {:induction false} BeforeByName(at: Path, n: Name, m: Name, a: Change, b: Change)
    requires Less(n, m)
    requires Prefix(at + [n], a.path) && Prefix(at + [m], b.path)
    ensures Before(a, b)
    decreases |at|
  {
    LessIsStrict(n, m);
    var k := |at|;
    assert a.path[..k + 1] == at + [n] && b.path[..k + 1] == at + [m];
    if at == [] {
      assert a.path[0] == a.path[..1][0] == n && b.path[0] == b.path[..1][0] == m;
    } else {
      assert a.path[0] == a.path[..k + 1][0] == at[0] && b.path[0] == b.path[..k + 1][0] == at[0];
      var a', b' := a.(path := a.path[1..]), b.(path := b.path[1..]);
      assert a'.path[..k] == a.path[..k + 1][1..] == at[1..] + [n];
      assert b'.path[..k] == b.path[..k + 1][1..] == at[1..] + [m];
      BeforeByName(at[1..], n, m, a', b');
    }
  }

  /** A removal comes before an addition when one path is strictly below the other. */
  lemma {:induction false} RemovalBeforeAddition(a: Change, b: Change)
    requires a.kind == Removed && b.kind == Added
    requires Above(a.path, b.path) || Above(b.path, a.path)
    ensures Before(a, b)
    decreases |a.path|
  {
    if a.path != [] && b.path != [] {
      var a', b' := a.(path := a.path[1..]), b.(path := b.path[1..]);
      if Above(a.path, b.path) {
        assert a.path[0] == b.path[..|a.path|][0] && a'.path == b.path[..|a.path|][1..];
      } else {
        assert b.path[0] == a.path[..|b.path|][0] && b'.path == a.path[..|b.path|][1..];
      }
      RemovalBeforeAddition(a', b');
    }
  }

  /** Order and reported set fix the list: there is only one diff of two trees. */
  lemma {:induction false} OrderedListsAreEqual(s: seq<Change>, t: seq<Change>)
    requires Ordered(s) && Ordered(t)
    requires forall c :: c in s <==> c in t
    ensures s == t
  {
    assert t != [] ==> t[0] in t;
    if s != [] {
      assert s[0] in t;
      var j :| 0 <= j < |t| && t[j] == s[0];
      if j > 0 {
        assert t[0] in s;
        var i :| 0 <= i < |s| && s[i] == t[0];
        assert i > 0 ==> Before(s[0], s[i]);
        BeforeIsStrict(t[0], t[j]);
      }
      forall c ensures c in s[1..] <==> c in t[1..] {
        HeadIsNotInTail(s, c);
        HeadIsNotInTail(t, c);
      }
      OrderedListsAreEqual(s[1..], t[1..]);
      assert s == [s[0]] + s[1..] && t == [t[0]] + t[1..];
    }
  }

  lemma HeadIsNotInTail(s: seq<Change>, c: Change)
    requires s != [] && Ordered(s)
    ensures c in s[1..] <==> c in s && c != s[0]
  {
    if c in s[1..] {
      var i :| 0 <= i < |s[1..]| && s[1..][i] == c;
      BeforeIsStrict(s[0], s[i + 1]);
    }
    if c in s && c != s[0] {
      var i :| 0 <= i < |s| && s[i] == c;
      assert s[1..][i - 1] == c;
    }
  }

  lemma DiffIsUnique(s: seq<Change>, t: seq<Change>, from: Tree, to: Tree)
    requires IsDiff(s, from, to) && IsDiff(t, from, to)
    ensures s == t
  {
    forall c ensures c in s <==> c in t {
      assert c in s <==> Reported(Roots(from, to), c);
    }
    OrderedListsAreEqual(s, t);
  }

  lemma {:induction false} DiffOfSelf(changes: seq<Change>, t: Tree)
    requires IsDiff(changes, t, t)
    ensures changes == [] <==> OnlyComparableLeaves(t)
  {
    if changes == [] {
      forall p | Tracked(View(t, p)) ensures ContentMatches(View(t, p).leaf, View(t, p).leaf) {
        DiffReports(changes, t, t, Change(p, Modified));
      }
    } else {
      DiffReports(changes, t, t, changes[0]);
      assert IsChange(View(t, changes[0].path), View(t, changes[0].path), changes[0].kind);
    }
  }

  /** Every regular file of the tree is stored inline or in the object store with a verity digest. */
  ghost predicate OnlyComparableLeaves(t: Tree) {
    forall p :: Tracked(View(t, p)) ==> ContentMatches(View(t, p).leaf, View(t, p).leaf)
  }

  function Mirror(c: Change): Change {
    Change(c.path, match c.kind case Removed => Added case Added => Removed case Modified => Modified)
  }

  /** The diff of two trees taken in the other direction reports the same paths with mirrored kinds. */
  lemma DiffIsReversible(there: seq<Change>, back: seq<Change>, a: Tree, b: Tree, c: Change)
    requires IsDiff(there, a, b) && IsDiff(back, b, a)
    ensures c in there <==> Mirror(c) in back
  {
    DiffReports(there, a, b, c);
    DiffReports(back, b, a, Mirror(c));
  }

  // ---- Putting a diff together -------------------------------------------------------------------

  /** The directory with only some of its entries. */
  function Restrict(d: Directory, names: set<Name>): Directory {
    d.(entries := map n | n in d.entries && n in names :: d.entries[n])
  }

  function RestrictedDirs(at: Path, fl: seq<Leaf>, from: Directory, tl: seq<Leaf>, to: Directory,
                          names: set<Name>): Pair {
    Pair(at, fl, Some(Dir(Restrict(from, names))), tl, Some(Dir(Restrict(to, names))))
  }

  function EntryPair(at: Path, fl: seq<Leaf>, from: Directory, tl: seq<Leaf>, to: Directory, name: Name): Pair {
    Pair(at + [name], fl, Entry(from, name), tl, Entry(to, name))
  }

  lemma RestrictView(leaves: seq<Leaf>, d: Directory, names: set<Name>, p: Path)
    requires p != []
    ensures DirView(leaves, Restrict(d, names), p)
         == if p[0] in names then SubView(leaves, Entry(d, p[0]), p[1..]) else Absent
  {
  }

  lemma EntryReported(at: Path, fl: seq<Leaf>, from: Directory, tl: seq<Leaf>, to: Directory, names: set<Name>,
                      c: Change)
    ensures Reported(RestrictedDirs(at, fl, from, tl, to, names), c)
       <==> Prefix(at, c.path) && |at| < |c.path| && c.path[|at|] in names
            && Reported(EntryPair(at, fl, from, tl, to, c.path[|at|]), c)
  {
    if Prefix(at, c.path) && |at| < |c.path| {
      var p, n := c.path[|at|..], c.path[|at|];
      RestrictView(fl, from, names, p);
      RestrictView(tl, to, names, p);
      assert c.path[..|at| + 1] == at + [n];
      assert p[1..] == c.path[|at + [n]|..];
    } else if Prefix(at, c.path) {
      assert c.path[|at|..] == [];
    }
  }

  /** The diff of two directories grows entry by entry, in name order. */
  lemma AppendEntry(done: seq<Change>, chunk: seq<Change>, at: Path, fl: seq<Leaf>, from: Directory, tl: seq<Leaf>,
                    to: Directory, names: set<Name>, name: Name)
    requires Describes(done, RestrictedDirs(at, fl, from, tl, to, names))
    requires Describes(chunk, EntryPair(at, fl, from, tl, to, name))
    requires forall m :: m in names ==> Less(m, name)
    ensures Describes(done + chunk, RestrictedDirs(at, fl, from, tl, to, names + {name}))
  {
    var before, entry := RestrictedDirs(at, fl, from, tl, to, names), EntryPair(at, fl, from, tl, to, name);
    var after := RestrictedDirs(at, fl, from, tl, to, names + {name});
    forall c ensures c in done + chunk <==> Reported(after, c) {
      assert c in done <==> Reported(before, c);
      assert c in chunk <==> Reported(entry, c);
      EntryReported(at, fl, from, tl, to, names, c);
      EntryReported(at, fl, from, tl, to, names + {name}, c);
      if Reported(entry, c) {
        assert c.path[..|at| + 1] == at + [name];
        assert c.path[|at|] == c.path[..|at| + 1][|at|];
        assert c.path[..|at|] == c.path[..|at| + 1][..|at|];
      }
    }
    forall i, j | 0 <= i < j < |done + chunk| ensures Before((done + chunk)[i], (done + chunk)[j]) {
      if i < |done| <= j {
        var a, b := done[i], chunk[j - |done|];
        assert a in done && b in chunk;
        assert Reported(before, a) && Reported(entry, b);
        EntryReported(at, fl, from, tl, to, names, a);
        BeforeByName(at, a.path[|at|], name, a, b);
      }
    }
  }

  lemma NothingReportedYet(at: Path, fl: seq<Leaf>, from: Directory, tl: seq<Leaf>, to: Directory)
    ensures Describes([], RestrictedDirs(at, fl, from, tl, to, {}))
  {
    forall c ensures !Reported(RestrictedDirs(at, fl, from, tl, to, {}), c) {
      EntryReported(at, fl, from, tl, to, {}, c);
    }
  }

  lemma AllReported(s: seq<Change>, at: Path, fl: seq<Leaf>, from: Directory, tl: seq<Leaf>, to: Directory,
                    names: set<Name>)
    requires Describes(s, RestrictedDirs(at, fl, from, tl, to, names))
    requires from.entries.Keys <= names && to.entries.Keys <= names
    ensures Describes(s, Pair(at, fl, Some(Dir(from)), tl, Some(Dir(to))))
  {
    assert Restrict(from, names).entries == from.entries;
    assert Restrict(to, names).entries == to.entries;
    assert Restrict(from, names) == from && Restrict(to, names) == to;
  }

  /** A missing subtree and an empty directory look the same to a diff. */
  lemma EmptyIsMissing(s: seq<Change>, pair: Pair, stat: Stat)
    ensures pair.to == Some(Dir(EmptyDirectory(stat))) && Describes(s, pair) ==> Describes(s, pair.(to := None))
    ensures pair.from == Some(Dir(EmptyDirectory(stat))) && Describes(s, pair) ==> Describes(s, pair.(from := None))
  {
    forall p ensures !SubView(pair.toLeaves, Some(Dir(EmptyDirectory(stat))), p).LeafNode?
             ensures !SubView(pair.fromLeaves, Some(Dir(EmptyDirectory(stat))), p).LeafNode? {
    }
    if pair.to == Some(Dir(EmptyDirectory(stat))) && Describes(s, pair) {
      forall c ensures Reported(pair, c) <==> Reported(pair.(to := None), c) {
      }
      forall c ensures c in s <==> Reported(pair.(to := None), c) {
        assert c in s <==> Reported(pair, c);
      }
    }
    if pair.from == Some(Dir(EmptyDirectory(stat))) && Describes(s, pair) {
      forall c ensures Reported(pair, c) <==> Reported(pair.(from := None), c) {
      }
      forall c ensures c in s <==> Reported(pair.(from := None), c) {
        assert c in s <==> Reported(pair, c);
      }
    }
  }

  /** A leaf facing a directory: the two one-sided diffs, removals first, make up the diff. */
  lemma JoinOneSided(removed: seq<Change>, added: seq<Change>, pair: Pair)
    requires pair.from.Some? && pair.to.Some? && pair.from.value.Dir? != pair.to.value.Dir?
    requires Describes(removed, pair.(to := None)) && Describes(added, pair.(from := None))
    ensures Describes(removed + added, pair)
  {
    forall c ensures c in removed + added <==> Reported(pair, c) {
      assert c in removed <==> Reported(pair.(to := None), c);
      assert c in added <==> Reported(pair.(from := None), c);
      OneSided(pair, c.path);
    }
    forall i, j | 0 <= i < j < |removed + added| ensures Before((removed + added)[i], (removed + added)[j]) {
      if i < |removed| <= j {
        var a, b := removed[i], added[j - |removed|];
        assert a in removed && b in added;
        assert Reported(pair.(to := None), a) && Reported(pair.(from := None), b);
        OneSided(pair, a.path);
        OneSided(pair, b.path);
        RemovalBeforeAddition(a, b);
      }
    }
  }

  lemma OneSided(pair: Pair, p: Path)
    requires pair.from.Some? && pair.to.Some? && pair.from.value.Dir? != pair.to.value.Dir?
    ensures Prefix(pair.at, p) ==>
              var q := p[|pair.at|..];
              && (SubView(pair.fromLeaves, pair.from, q).LeafNode? ==> !SubView(pair.toLeaves, pair.to, q).LeafNode?)
              && (SubView(pair.fromLeaves, pair.from, q).LeafNode? && pair.from.value.LeafId? ==> p == pair.at)
              && (SubView(pair.toLeaves, pair.to, q).LeafNode? && pair.to.value.LeafId? ==> p == pair.at)
              && (SubView(pair.fromLeaves, pair.from, q).LeafNode? && pair.from.value.Dir? ==> Above(pair.at, p))
              && (SubView(pair.toLeaves, pair.to, q).LeafNode? && pair.to.value.Dir? ==> Above(pair.at, p))
  {
    if Prefix(pair.at, p) && |p| == |pair.at| {
      assert p == p[..|pair.at|];
    }
  }

  lemma EntriesInRange(leaves: seq<Leaf>, d: Directory, name: Name)
    requires InRange(leaves, Some(Dir(d)))
    ensures InRange(leaves, Entry(d, name))
  {
    forall p ensures !SubView(leaves, Entry(d, name), p).Dangling? {
      if name in d.entries {
        assert ([name] + p)[1..] == p;
        assert !SubView(leaves, Some(Dir(d)), [name] + p).Dangling?;
      }
    }
  }

  // ---- The traversal -----------------------------------------------------------------------------

  class TreeDiff {
    const fromLeaves: seq<Leaf>
    const toLeaves: seq<Leaf>
    var changes: seq<Change>

    constructor (fromLeaves: seq<Leaf>, toLeaves: seq<Leaf>)
      ensures this.fromLeaves == fromLeaves && this.toLeaves == toLeaves && changes == []
    {
      this.fromLeaves, this.toLeaves, changes := fromLeaves, toLeaves, [];
    }

    /** The diff of two trees. */
    static method Run(from: FileSystem, to: FileSystem) returns (r: seq<Change>)
      requires Valid(from.Value()) && Valid(to.Value())
      ensures IsDiff(r, from.Value(), to.Value())
    {
      var differ := new TreeDiff(from.leaves, to.leaves);
      assert forall p :: View(from.Value(), p) == SubView(from.leaves, Some(Dir(from.root)), p);
      assert forall p :: View(to.Value(), p) == SubView(to.leaves, Some(Dir(to.root)), p);
      differ.CompareDirectories([], from.root, to.root);
      r := differ.changes;
      assert r[0..] == r;
    }

    method CompareDirectories(prefix: Path, from: Directory, to: Directory)
      requires InRange(fromLeaves, Some(Dir(from))) && InRange(toLeaves, Some(Dir(to)))
      modifies this
      ensures old(changes) <= changes
      ensures Describes(changes[|old(changes)|..], Pair(prefix, fromLeaves, Some(Dir(from)), toLeaves, Some(Dir(to))))
      decreases from, 1
    {
      var fromNames := SortNames(from.entries.Keys);
      var toNames := SortNames(to.entries.Keys);
      var i, j := 0, 0;
      ghost var done := {};
      ghost var start := |changes|;
      NothingReportedYet(prefix, fromLeaves, from, toLeaves, to);
      assert changes[start..] == [];

      while i < |fromNames| || j < |toNames|
        invariant 0 <= i <= |fromNames| && 0 <= j <= |toNames|
        invariant Passed(done, fromNames, i) && Passed(done, toNames, j)
        invariant old(changes) <= changes
        invariant Describes(changes[start..], RestrictedDirs(prefix, fromLeaves, from, toLeaves, to, done))
        decreases |fromNames| - i + |toNames| - j
      {
        ghost var before, i0, j0 := changes, i, j;
        var name;
        if i < |fromNames| && j < |toNames| && fromNames[i] == toNames[j] {
          name := fromNames[i];
          assert name in fromNames && name in toNames;
          EntriesInRange(fromLeaves, from, name);
          EntriesInRange(toLeaves, to, name);
          CompareMatchedEntry(prefix + [name], from.entries[name], to.entries[name]);
          i, j := i + 1, j + 1;
        } else if i < |fromNames| && (j == |toNames| || Less(fromNames[i], toNames[j])) {
          name := fromNames[i];
          assert name in fromNames;
          NotListed(done, toNames, j, name);
          EntriesInRange(fromLeaves, from, name);
          MarkSubtree(prefix + [name], from.entries[name], From);
          i := i + 1;
        } else {
          name := toNames[j];
          assert name in toNames;
          if i < |fromNames| {
            LessIsTotal(fromNames[i], name);
          }
          NotListed(done, fromNames, i, name);
          EntriesInRange(toLeaves, to, name);
          MarkSubtree(prefix + [name], to.entries[name], To);
          j := j + 1;
        }
        ghost var chunk := changes[|before|..];
        assert Describes(chunk, EntryPair(prefix, fromLeaves, from, toLeaves, to, name));
        AppendEntry(before[start..], chunk, prefix, fromLeaves, from, toLeaves, to, done, name);
        assert changes[start..] == before[start..] + chunk;
        Advance(done, fromNames, i0, i, name);
        Advance(done, toNames, j0, j, name);
        done := done + {name};
      }
      AllReported(changes[start..], prefix, fromLeaves, from, toLeaves, to, done);
    }

    method CompareMatchedEntry(path: Path, from: Inode, to: Inode)
      requires InRange(fromLeaves, Some(from)) && InRange(toLeaves, Some(to))
      modifies this
      ensures old(changes) <= changes
      ensures Describes(changes[|old(changes)|..], Pair(path, fromLeaves, Some(from), toLeaves, Some(to)))
      decreases from, 0
    {
      ghost var pair := Pair(path, fromLeaves, Some(from), toLeaves, Some(to));
      match (from, to) {
        case (Dir(fromSub), Dir(toSub)) =>
          CompareDirectories(path, fromSub, toSub);
        case (LeafId(fromId), LeafId(toId)) =>
          assert !SubView(fromLeaves, Some(from), []).Dangling? && !SubView(toLeaves, Some(to), []).Dangling?;
          var fromLeaf, toLeaf := fromLeaves[fromId], toLeaves[toId];
          if IsRegularOrSymlink(fromLeaf) && IsRegularOrSymlink(toLeaf) && !ContentMatches(fromLeaf, toLeaf) {
            changes := changes + [Change(path, Modified)];
          }
          LeavesDescribed(changes[|old(changes)|..], pair);
        case _ =>
          MarkSubtree(path, from, From);
          ghost var middle := changes;
          MarkSubtree(path, to, To);
          JoinOneSided(middle[|old(changes)|..], changes[|middle|..], pair);
          assert changes[|old(changes)|..] == middle[|old(changes)|..] + changes[|middle|..];
      }
    }

    method MarkSubtree(path: Path, inode: Inode, side: Side)
      requires InRange(Leaves(side), Some(inode))
      modifies this
      ensures old(changes) <= changes
      ensures Describes(changes[|old(changes)|..], OneSidePair(path, inode, side))
      decreases inode
    {
      match inode {
        case LeafId(id) =>
          assert !SubView(Leaves(side), Some(inode), []).Dangling?;
          if IsRegularOrSymlink(Leaves(side)[id]) {
            changes := changes + [Change(path, side.Kind())];
          }
          LeafMarked(changes[|old(changes)|..], path, inode, side);
        case Dir(dir) =>
          var names := SortNames(dir.entries.Keys);
          ghost var empty := EmptyDirectory(dir.stat);
          ghost var from, to := if side == From then dir else empty, if side == From then empty else dir;
          NothingReportedYet(path, fromLeaves, from, toLeaves, to);
          assert changes[|old(changes)|..] == [];
          ghost var done := {};
          for i := 0 to |names|
            invariant forall n :: n in done <==> n in names[..i]
            invariant old(changes) <= changes
            invariant Describes(changes[|old(changes)|..], RestrictedDirs(path, fromLeaves, from, toLeaves, to, done))
          {
            ghost var before := changes;
            var name := names[i];
            assert name in dir.entries.Keys;
            EntriesInRange(Leaves(side), dir, name);
            MarkSubtree(path + [name], dir.entries[name], side);
            AppendEntry(before[|old(changes)|..], changes[|before|..],
                        path, fromLeaves, from, toLeaves, to, done, name);
            assert changes[|old(changes)|..] == before[|old(changes)|..] + changes[|before|..];
            done := done + {name};
          }
          assert names[..|names|] == names;
          AllReported(changes[|old(changes)|..], path, fromLeaves, from, toLeaves, to, done);
          EmptyIsMissing(changes[|old(changes)|..],
                         Pair(path, fromLeaves, Some(Dir(from)), toLeaves, Some(Dir(to))), dir.stat);
      }
    }

    function Leaves(side: Side): seq<Leaf> {
      match side
      case From => fromLeaves
      case To => toLeaves
    }

    ghost function OneSidePair(path: Path, inode: Inode, side: Side): Pair {
      match side
      case From => Pair(path, fromLeaves, Some(inode), toLeaves, None)
      case To => Pair(path, fromLeaves, None, toLeaves, Some(inode))
    }

    lemma LeafMarked(s: seq<Change>, path: Path, inode: Inode, side: Side)
      requires inode.LeafId? && inode.id < |Leaves(side)|
      requires s == if IsRegularOrSymlink(Leaves(side)[inode.id]) then [Change(path, side.Kind())] else []
      ensures Describes(s, OneSidePair(path, inode, side))
    {
      forall c ensures c in s <==> Reported(OneSidePair(path, inode, side), c) {
        if Prefix(path, c.path) && c.path[|path|..] == [] {
          assert c.path == path;
        }
      }
    }
  }

  lemma LeavesDescribed(s: seq<Change>, pair: Pair)
    requires pair.from.Some? && pair.from.value.LeafId? && pair.from.value.id < |pair.fromLeaves|
    requires pair.to.Some? && pair.to.value.LeafId? && pair.to.value.id < |pair.toLeaves|
    requires var a, b := pair.fromLeaves[pair.from.value.id], pair.toLeaves[pair.to.value.id];
             s == if IsRegularOrSymlink(a) && IsRegularOrSymlink(b) && !ContentMatches(a, b)
                  then [Change(pair.at, Modified)] else []
    ensures Describes(s, pair)
  {
    forall c ensures c in s <==> Reported(pair, c) {
      if Prefix(pair.at, c.path) && c.path[|pair.at|..] == [] {
        assert c.path == pair.at;
      }
    }
  }

  /** The cursor `k` has passed exactly those names of a sorted listing that are done. */
  ghost predicate Passed(done: set<Name>, names: seq<Name>, k: nat)
    requires k <= |names|
  {
    && (forall i :: 0 <= i < k ==> names[i] in done)
    && (forall n, i :: n in done && k <= i < |names| ==> Less(n, names[i]))
  }

  /** A name below the next listed one, and above all earlier ones, is not in the listing. */
  lemma NotListed(done: set<Name>, names: seq<Name>, k: nat, name: Name)
    requires Sorted(names) && k <= |names| && Passed(done, names, k)
    requires forall n :: n in done ==> Less(n, name)
    requires k == |names| || Less(name, names[k])
    ensures name !in names
  {
    forall i | 0 <= i < |names| ensures names[i] != name {
      LessIsStrict(names[i], name);
      LessIsStrict(name, names[i]);
      if k < i {
        LessIsTransitive(name, names[k], names[i]);
      }
    }
  }

  /** Doing one more name moves the cursor exactly when the listing has that name next. */
  lemma Advance(done: set<Name>, names: seq<Name>, k: nat, k': nat, name: Name)
    requires Sorted(names) && k <= k' <= |names| && Passed(done, names, k)
    requires if k' == k then k == |names| || Less(name, names[k]) else k' == k + 1 && names[k] == name
    ensures Passed(done + {name}, names, k')
  {
    forall i | k' <= i < |names| ensures Less(name, names[i]) {
      if k' == k < i {
        LessIsTransitive(name, names[k], names[i]);
      }
    }
  }
}
