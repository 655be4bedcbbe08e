/** Directory trees whose leaves are ids into a leaf table, and the edits a file handle makes to them.

    A directory owns its children, so the whole tree is a value held in one field of the class FileSystem.
    Everything said about a tree is said through View, the flat map from a path to what is found there.
  */
module Trees {
  import opened Basics
  import opened Paths

  type Digest = string

  datatype RepoError = NotFound | InvalidPath | NotADirectory | IsADirectory

  datatype Outcome = Ok | Err(error: RepoError)

  datatype Stat = Stat(mode: nat, uid: nat, gid: nat, mtimeSec: int, mtimeNsec: nat)

  datatype RegularFile =
    | Inline(bytes: Bytes)
    | External(id: Digest, size: nat)
    | ExternalNoVerity(id: Digest, size: nat)
    | Sparse(size: nat)

  datatype Content =
    | Regular(file: RegularFile)
    | Symlink(target: string)
    | BlockDevice(rdev: nat)
    | CharacterDevice(rdev: nat)
    | Fifo
    | Socket

  datatype Leaf = Leaf(stat: Stat, content: Content)

  datatype Directory = Directory(stat: Stat, entries: map<Name, Inode>)

  datatype Inode = Dir(dir: Directory) | LeafId(id: nat)

  datatype Tree = Tree(root: Directory, leaves: seq<Leaf>)

  /** What a path leads to.  A dangling node is a leaf id outside the leaf table; valid trees have none. */
  datatype Node = Absent | DirNode(stat: Stat) | LeafNode(leaf: Leaf) | Dangling(id: nat)

  // ---- Looking up ------------------------------------------------------------------------------

  function At(d: Directory, p: Path): Option<Inode> {
    if p == [] then Some(Dir(d))
    else if p[0] !in d.entries then None
    else
      match d.entries[p[0]]
      case Dir(sub) => At(sub, p[1..])
      case LeafId(id) => if |p| == 1 then Some(LeafId(id)) else None
  }

  function NodeOf(leaves: seq<Leaf>, inode: Option<Inode>): Node {
    match inode
    case None => Absent
    case Some(Dir(d)) => DirNode(d.stat)
    case Some(LeafId(id)) => if id < |leaves| then LeafNode(leaves[id]) else Dangling(id)
  }

  function DirView(leaves: seq<Leaf>, d: Directory, p: Path): Node {
    NodeOf(leaves, At(d, p))
  }

  function View(t: Tree, p: Path): Node {
    DirView(t.leaves, t.root, p)
  }

  ghost predicate Valid(t: Tree) {
    forall p :: !View(t, p).Dangling?
  }

  function HasDir(t: Tree, p: Path): bool {
    View(t, p).DirNode?
  }

  function HasLeaf(t: Tree, p: Path): bool {
    View(t, p).LeafNode?
  }

  /** The error of walking down from `d` along `p` expecting directories all the way, if there is one. */
  function WalkError(d: Directory, p: Path): (r: Option<RepoError>)
    ensures r == None <==> At(d, p).Some? && At(d, p).value.Dir?
  {
    if p == [] then None
    else if p[0] !in d.entries then Some(NotFound)
    else
      match d.entries[p[0]]
      case Dir(sub) => WalkError(sub, p[1..])
      case LeafId(_) => Some(NotADirectory)
  }

  /** The error of splitting `p` into a parent directory and a file name, if there is one. */
  function SplitError(d: Directory, p: Path): Option<RepoError> {
    if p == [] then Some(InvalidPath) else WalkError(d, Parent(p))
  }

  function GetDir(d: Directory, p: Path): Directory
    requires WalkError(d, p) == None
  {
    At(d, p).value.dir
  }

  // ---- Editing one directory inside the tree -----------------------------------------------------

  /** The tree `d` with the directory at `p` passed through `f`. */
  function Edit(d: Directory, p: Path, f: Directory -> Directory): Directory
    requires WalkError(d, p) == None
  {
    if p == [] then f(d)
    else d.(entries := d.entries[p[0] := Dir(Edit(d.entries[p[0]].dir, p[1..], f))])
  }

  /** An edit is local: paths that do not pass through the edited directory keep their view. */
  lemma {:induction false} EditIsLocal(leaves: seq<Leaf>, d: Directory, p: Path, f: Directory -> Directory, q: Path)
    requires WalkError(d, p) == None
    ensures DirView(leaves, Edit(d, p, f), q)
         == if Prefix(p, q) then DirView(leaves, f(GetDir(d, p)), q[|p|..]) else DirView(leaves, d, q)
  {
    if p == [] {
      assert q[|p|..] == q;
    } else if q != [] && q[0] == p[0] {
      var sub := d.entries[p[0]].dir;
      EditIsLocal(leaves, sub, p[1..], f, q[1..]);
      assert At(Edit(d, p, f), q) == At(Edit(sub, p[1..], f), q[1..]);
      assert At(d, q) == At(sub, q[1..]);
      PrefixOfTail(p, q);
    }
  }

  function WithEntry(d: Directory, name: Name, inode: Inode): Directory {
    d.(entries := d.entries[name := inode])
  }

  function WithoutEntry(d: Directory, name: Name): Directory {
    d.(entries := d.entries - {name})
  }

  function EmptyDirectory(stat: Stat): Directory {
    Directory(stat, map[])
  }

  /** The view after `node`, with nothing below it, has taken the place of whatever was at `p`. */
  function Placed(t: Tree, p: Path, node: Node, q: Path): Node {
    if q == p then node
    else if Above(p, q) then Absent
    else View(t, q)
  }

  ghost predicate BecamePlaced(t': Tree, t: Tree, p: Path, node: Node) {
    forall q :: View(t', q) == Placed(t, p, node, q)
  }

  function PutInode(d: Directory, p: Path, inode: Inode): Directory
    requires SplitError(d, p) == None
  {
    Edit(d, Parent(p), x => WithEntry(x, Last(p), inode))
  }

  function RemoveInode(d: Directory, p: Path): Directory
    requires SplitError(d, p) == None
  {
    Edit(d, Parent(p), x => WithoutEntry(x, Last(p)))
  }

  function Restat(d: Directory, p: Path, stat: Stat): Directory
    requires WalkError(d, p) == None
  {
    Edit(d, p, (x: Directory) => x.(stat := stat))
  }

  lemma SplitPath(p: Path, q: Path)
    requires p != []
    ensures Prefix(Parent(p), q) && |q| > |Parent(p)| && q[|Parent(p)|] == Last(p) <==> Prefix(p, q)
  {
    assert p == Parent(p) + [Last(p)];
    if Prefix(p, q) {
      assert q[|Parent(p)|] == q[..|p|][|Parent(p)|];
      assert q[..|Parent(p)|] == q[..|p|][..|Parent(p)|];
    }
    if Prefix(Parent(p), q) && |q| > |Parent(p)| && q[|Parent(p)|] == Last(p) {
      assert q[..|p|] == q[..|Parent(p)|] + [q[|Parent(p)|]];
    }
  }

  lemma PutPlaces(t: Tree, p: Path, inode: Inode)
    requires SplitError(t.root, p) == None
    requires inode.Dir? ==> inode.dir.entries == map[]
    ensures BecamePlaced(Tree(PutInode(t.root, p, inode), t.leaves), t, p, NodeOf(t.leaves, Some(inode)))
  {
    var t' := Tree(PutInode(t.root, p, inode), t.leaves);
    forall q ensures View(t', q) == Placed(t, p, NodeOf(t.leaves, Some(inode)), q) {
      var parent := Parent(p);
      EditIsLocal(t.leaves, t.root, parent, x => WithEntry(x, Last(p), inode), q);
      EditIsLocal(t.leaves, t.root, parent, x => x, q);
      UnchangedEdit(t.root, parent);
      SplitPath(p, q);
      if Prefix(parent, q) {
        var rest := q[|parent|..];
        var edited := WithEntry(GetDir(t.root, parent), Last(p), inode);
        assert View(t', q) == DirView(t.leaves, edited, rest);
        if rest != [] && rest[0] == Last(p) {
          assert Prefix(p, q);
          if |rest| == 1 {
            assert q == p;
            assert At(edited, rest) == Some(inode);
          } else {
            assert Above(p, q);
            assert At(edited, rest) == None;
          }
        } else {
          assert !Prefix(p, q);
        }
      }
    }
  }

  /** What a path below an inode leads to. */
  function InodeView(leaves: seq<Leaf>, inode: Inode, p: Path): Node {
    match inode
    case Dir(d) => DirView(leaves, d, p)
    case LeafId(_) => if p == [] then NodeOf(leaves, Some(inode)) else Absent
  }

  lemma {:induction false} ViewThrough(leaves: seq<Leaf>, d: Directory, p: Path, r: Path)
    requires At(d, p).Some?
    ensures DirView(leaves, d, p + r) == InodeView(leaves, At(d, p).value, r)
  {
    if p == [] {
      assert p + r == r;
    } else {
      assert (p + r)[1..] == p[1..] + r;
      if d.entries[p[0]].Dir? {
        ViewThrough(leaves, d.entries[p[0]].dir, p[1..], r);
      } else {
        assert p + r == [p[0]] + r;
      }
    }
  }

  /** Putting an inode at a path grafts everything below it there. */
  lemma PutGrafts(t: Tree, p: Path, inode: Inode, q: Path)
    requires SplitError(t.root, p) == None
    ensures View(Tree(PutInode(t.root, p, inode), t.leaves), q)
         == if Prefix(p, q) then InodeView(t.leaves, inode, q[|p|..]) else View(t, q)
  {
    var parent := Parent(p);
    EditIsLocal(t.leaves, t.root, parent, x => WithEntry(x, Last(p), inode), q);
    EditIsLocal(t.leaves, t.root, parent, x => x, q);
    UnchangedEdit(t.root, parent);
    SplitPath(p, q);
    if Prefix(p, q) {
      assert q[|parent|..] == [Last(p)] + q[|p|..];
      ViewThrough(t.leaves, WithEntry(GetDir(t.root, parent), Last(p), inode), [Last(p)], q[|p|..]);
    } else if Prefix(parent, q) {
      var rest := q[|parent|..];
      assert rest == [] || rest[0] != Last(p);
    }
  }

  lemma UnchangedEdit(d: Directory, p: Path)
    requires WalkError(d, p) == None
    ensures Edit(d, p, x => x) == d
  {
    if p != [] {
      UnchangedEdit(d.entries[p[0]].dir, p[1..]);
      assert d.entries[p[0] := d.entries[p[0]]] == d.entries;
    }
  }

  lemma RemovePlaces(t: Tree, p: Path)
    requires SplitError(t.root, p) == None
    ensures BecamePlaced(Tree(RemoveInode(t.root, p), t.leaves), t, p, Absent)
  {
    var t' := Tree(RemoveInode(t.root, p), t.leaves);
    forall q ensures View(t', q) == Placed(t, p, Absent, q) {
      var parent := Parent(p);
      EditIsLocal(t.leaves, t.root, parent, x => WithoutEntry(x, Last(p)), q);
      EditIsLocal(t.leaves, t.root, parent, x => x, q);
      UnchangedEdit(t.root, parent);
      SplitPath(p, q);
      if Prefix(parent, q) {
        var rest := q[|parent|..];
        if rest != [] && rest[0] == Last(p) {
          assert Prefix(p, q);
        } else {
          assert !Prefix(p, q);
        }
      }
    }
  }

  lemma RestatPlaces(t: Tree, p: Path, stat: Stat, q: Path)
    requires WalkError(t.root, p) == None
    ensures View(Tree(Restat(t.root, p, stat), t.leaves), q)
         == if q == p then DirNode(stat) else View(t, q)
  {
    EditIsLocal(t.leaves, t.root, p, (x: Directory) => x.(stat := stat), q);
    EditIsLocal(t.leaves, t.root, p, x => x, q);
    UnchangedEdit(t.root, p);
    if Prefix(p, q) && q[|p|..] == [] {
      assert q == p;
    }
  }

  lemma SplitNeedsParent(t: Tree, p: Path)
    ensures SplitError(t.root, p) == None <==> p != [] && HasDir(t, Parent(p))
  {
  }

  /** Adding to the leaf table changes no view of a valid tree: ids keep their meaning. */
  lemma PushKeepsView(t: Tree, leaf: Leaf, q: Path)
    requires Valid(t)
    ensures View(Tree(t.root, t.leaves + [leaf]), q) == View(t, q)
  {
    assert !View(t, q).Dangling?;
  }

  /** A path below something that is not a directory leads nowhere. */
  lemma {:induction false} NothingBelowNonDirectory(leaves: seq<Leaf>, d: Directory, p: Path, q: Path)
    requires Above(p, q)
    requires !DirView(leaves, d, p).DirNode?
    ensures DirView(leaves, d, q) == Absent
  {
    if p != [] && p[0] in d.entries && d.entries[p[0]].Dir? {
      assert p[1..] == q[1..][..|p[1..]|];
      NothingBelowNonDirectory(leaves, d.entries[p[0]].dir, p[1..], q[1..]);
    }
  }

  lemma RootIsDirectory(t: Tree)
    ensures HasDir(t, [])
  {
  }

  lemma AncestorsAreDirectories(t: Tree, p: Path, q: Path)
    requires Above(p, q) && View(t, q) != Absent
    ensures HasDir(t, p)
  {
    if !HasDir(t, p) {
      NothingBelowNonDirectory(t.leaves, t.root, p, q);
    }
  }

  // ---- What a reader of the tree sees --------------------------------------------------------------

  /** A path leads through the entries of nested directories to a directory or, through its id, to a leaf. */
  lemma {:induction false} ViewFollowsEntries(leaves: seq<Leaf>, d: Directory, name: Name, p: Path)
    ensures View(Tree(d, leaves), []) == DirNode(d.stat)
    ensures name !in d.entries ==> View(Tree(d, leaves), [name] + p) == Absent
    ensures forall sub :: name in d.entries && d.entries[name] == Dir(sub) ==>
              View(Tree(d, leaves), [name] + p) == View(Tree(sub, leaves), p)
    ensures forall id: nat :: name in d.entries && d.entries[name] == LeafId(id) && id < |leaves| ==>
              View(Tree(d, leaves), [name] + p) == if p == [] then LeafNode(leaves[id]) else Absent
  {
    assert ([name] + p)[1..] == p;
  }

  /** Why a walk along `p` fails: some name on the way is no directory, or else one is missing. */
  lemma {:induction false} WalkErrorIs(t: Tree, p: Path)
    ensures WalkError(t.root, p) == None <==> View(t, p).DirNode?
    ensures WalkError(t.root, p) == Some(NotADirectory)
       <==> exists q :: q <= p && (View(t, q).LeafNode? || View(t, q).Dangling?)
    ensures WalkError(t.root, p) == Some(NotFound)
       <==> View(t, p) == Absent && forall q :: q <= p ==> View(t, q) == Absent || View(t, q).DirNode?
    ensures SplitError(t.root, []) == Some(InvalidPath)
  {
    WalkErrorKinds(t.leaves, t.root, p);
    if WalkError(t.root, p) == Some(NotADirectory) {
      var q :| q <= p && LeafAt(t.leaves, t.root, q);
      assert View(t, q).LeafNode? || View(t, q).Dangling?;
    }
    if q :| q <= p && (View(t, q).LeafNode? || View(t, q).Dangling?) {
      assert LeafAt(t.leaves, t.root, q);
    }
  }

  lemma {:induction false} WalkErrorKinds(leaves: seq<Leaf>, d: Directory, p: Path)
    ensures WalkError(d, p) == Some(NotADirectory) ==> exists q :: q <= p && LeafAt(leaves, d, q)
    ensures WalkError(d, p) == Some(NotFound) ==> DirView(leaves, d, p) == Absent
    ensures WalkError(d, p) != Some(NotADirectory) ==> forall q :: q <= p ==> !LeafAt(leaves, d, q)
    ensures WalkError(d, p) in {None, Some(NotFound), Some(NotADirectory)}
  {
    if p != [] && p[0] in d.entries {
      match d.entries[p[0]]
      case LeafId(_) =>
        assert [p[0]] <= p && LeafAt(leaves, d, [p[0]]);
      case Dir(sub) =>
        WalkErrorKinds(leaves, sub, p[1..]);
        if q :| q <= p[1..] && LeafAt(leaves, sub, q) {
          assert ([p[0]] + q)[1..] == q;
          assert [p[0]] + q <= p && LeafAt(leaves, d, [p[0]] + q);
        }
        forall q | q <= p ensures LeafAt(leaves, d, q) ==> q != [] && q[1..] <= p[1..] && LeafAt(leaves, sub, q[1..]) {
        }
    }
  }

  predicate LeafAt(leaves: seq<Leaf>, d: Directory, p: Path) {
    DirView(leaves, d, p).LeafNode? || DirView(leaves, d, p).Dangling?
  }

  /** What has been placed at a path is found there, nothing is found below it, and all else is as it was. */
  lemma PlacedShows(t': Tree, t: Tree, p: Path, node: Node)
    ensures BecamePlaced(t', t, p, node)
       <==> && View(t', p) == node
            && (forall r :: r != [] ==> View(t', p + r) == Absent)
            && (forall q :: !(p <= q) ==> View(t', q) == View(t, q))
  {
    hide View;
    forall r | r != [] ensures Above(p, p + r) {
      assert (p + r)[..|p|] == p;
    }
    forall q | Above(p, q) ensures q == p + q[|p|..] && p <= q && q[|p|..] != [] {
    }
    forall q ensures p <= q <==> q == p || Above(p, q) {
    }
  }

  /** What has been moved is found, with everything below it, at the new path, nothing is found at the old one or below,
      and all else is as it was. */
  lemma MovedShows(t': Tree, t: Tree, p: Path, p': Path)
    requires forall q :: View(t', q) == Moved(t, p, p', q)
    ensures forall r :: View(t', p' + r) == View(t, p + r)
    ensures forall r :: !(p' <= p + r) ==> View(t', p + r) == Absent
    ensures forall q :: !(p <= q) && !(p' <= q) ==> View(t', q) == View(t, q)
  {
    hide View;
    forall r ensures View(t', p' + r) == View(t, p + r) {
      assert (p' + r)[|p'|..] == r && (p' + r)[..|p'|] == p';
    }
    forall r | !(p' <= p + r) ensures View(t', p + r) == Absent {
      assert (p + r)[..|p|] == p;
    }
  }

  // ---- The tree as the source holds it -----------------------------------------------------------

  /** The view after what was at `p` has been moved to `p'`. */
  function Moved(t: Tree, p: Path, p': Path, q: Path): Node {
    if Prefix(p', q) then View(t, p + q[|p'|..])
    else if Prefix(p, q) then Absent
    else View(t, q)
  }

  lemma {:induction false} PutIsFound(d: Directory, p: Path, inode: Inode)
    requires SplitError(d, p) == None
    ensures At(PutInode(d, p, inode), p) == Some(inode)
  {
    if |p| > 1 {
      assert Parent(p)[1..] == Parent(p[1..]);
      PutIsFound(d.entries[p[0]].dir, p[1..], inode);
    }
  }

  lemma PresentIsReachable(t: Tree, p: Path)
    ensures p != [] && View(t, p) != Absent ==> SplitError(t.root, p) == None
    ensures At(t.root, p) == None <==> View(t, p) == Absent
  {
    if p != [] && View(t, p) != Absent {
      AncestorsAreDirectories(t, Parent(p), p);
      SplitNeedsParent(t, p);
    }
  }

  lemma RemovalStaysValid(t': Tree, t: Tree, p: Path)
    requires Valid(t) && BecamePlaced(t', t, p, Absent)
    ensures Valid(t')
  {
    forall q ensures !View(t', q).Dangling? {
      assert View(t', q) == Placed(t, p, Absent, q);
    }
  }

  lemma MoveStaysValid(t': Tree, t: Tree, p: Path, p': Path)
    requires Valid(t) && forall q :: View(t', q) == Moved(t, p, p', q)
    ensures Valid(t')
  {
    forall q ensures !View(t', q).Dangling? {
      assert View(t', q) == Moved(t, p, p', q);
    }
  }

  lemma ParentAfterRemoval(t': Tree, t: Tree, p: Path, q: Path)
    requires BecamePlaced(t', t, p, Absent)
    ensures q != [] ==> (HasDir(t', Parent(q)) <==> HasDir(t, Parent(q)) && !Prefix(p, Parent(q)))
  {
    if q != [] {
      assert View(t', Parent(q)) == Placed(t, p, Absent, Parent(q));
      assert Prefix(p, Parent(q)) <==> p == Parent(q) || Above(p, Parent(q));
    }
  }

  class FileSystem {
    var root: Directory
    var leaves: seq<Leaf>

    ghost function Value(): Tree
      reads this
    {
      Tree(root, leaves)
    }

    constructor Clone(other: FileSystem)
      ensures Value() == other.Value()
    {
      root, leaves := other.root, other.leaves;
    }

    method PushLeaf(leaf: Leaf) returns (id: nat)
      requires Valid(Value())
      modifies this`leaves
      ensures id == |old(leaves)| && leaves == old(leaves) + [leaf]
      ensures Valid(Value())
      ensures forall q :: View(Value(), q) == View(old(Value()), q)
    {
      forall q ensures View(Tree(root, leaves + [leaf]), q) == View(Value(), q) {
        PushKeepsView(Value(), leaf, q);
      }
      id := |leaves|;
      leaves := leaves + [leaf];
    }
  }

  datatype FileHandle = FileHandle(path: Path) {
    /** Puts an empty directory at the path, replacing whatever was there. */
    method InsertInTree(tree: FileSystem, stat: Stat) returns (r: Outcome)
      requires Valid(tree.Value())
      modifies tree`root
      ensures r == OutcomeOf(SplitError(old(tree.root), path))
      ensures r.Ok? ==> BecamePlaced(tree.Value(), old(tree.Value()), path, DirNode(stat))
      ensures r.Err? ==> tree.Value() == old(tree.Value())
      ensures Valid(tree.Value())
    {
      var error := SplitError(tree.root, path);
      if error.Some? {
        return Err(error.value);
      }
      PutPlaces(tree.Value(), path, Dir(EmptyDirectory(stat)));
      tree.root := PutInode(tree.root, path, Dir(EmptyDirectory(stat)));
      r := Ok;
    }

    /** Gives the directory at the path a new stat and leaves its children alone. */
    method UpdateInTree(tree: FileSystem, stat: Stat) returns (r: Outcome)
      requires Valid(tree.Value())
      modifies tree`root
      ensures r == OutcomeOf(WalkError(old(tree.root), path))
      ensures r.Ok? ==> forall q :: View(tree.Value(), q)
                                 == if q == path then DirNode(stat) else View(old(tree.Value()), q)
      ensures r.Err? ==> tree.Value() == old(tree.Value())
      ensures Valid(tree.Value())
    {
      var error := WalkError(tree.root, path);
      if error.Some? {
        return Err(error.value);
      }
      forall q {
        RestatPlaces(tree.Value(), path, stat, q);
      }
      tree.root := Restat(tree.root, path, stat);
      r := Ok;
    }

    /** Appends a leaf to the table and, if the parent directory exists, points the path at it. */
    method PlaceLeaf(tree: FileSystem, leaf: Leaf) returns (r: Outcome)
      requires Valid(tree.Value())
      modifies tree
      ensures r == OutcomeOf(SplitError(old(tree.root), path))
      ensures tree.leaves == old(tree.leaves) + [leaf]
      ensures r.Ok? ==> BecamePlaced(tree.Value(), old(tree.Value()), path, LeafNode(leaf))
      ensures r.Err? ==> tree.root == old(tree.root)
      ensures Valid(tree.Value())
    {
      var id := tree.PushLeaf(leaf);
      var error := SplitError(tree.root, path);
      if error.Some? {
        return Err(error.value);
      }
      PutPlaces(tree.Value(), path, LeafId(id));
      tree.root := PutInode(tree.root, path, LeafId(id));
      r := Ok;
    }

    /** Copies the leaf at `sourcePath` of another tree to this path. */
    method CopyFromTree(dest: FileSystem, source: FileSystem, sourcePath: Path) returns (r: Outcome)
      requires dest != source
      requires Valid(dest.Value()) && Valid(source.Value())
      modifies dest
      ensures r == if SplitError(source.root, sourcePath).Some? then Err(SplitError(source.root, sourcePath).value)
                   else if View(source.Value(), sourcePath) == Absent then Err(NotFound)
                   else if HasDir(source.Value(), sourcePath) then Err(IsADirectory)
                   else OutcomeOf(SplitError(old(dest.root), path))
      ensures r.Ok? ==> HasLeaf(source.Value(), sourcePath)
                        && BecamePlaced(dest.Value(), old(dest.Value()), path, View(source.Value(), sourcePath))
      ensures r.Err? ==> dest.root == old(dest.root)
      ensures old(dest.leaves) <= dest.leaves
      ensures Valid(dest.Value())
    {
      var error := SplitError(source.root, sourcePath);
      if error.Some? {
        return Err(error.value);
      }
      var inode := At(source.root, sourcePath);
      assert !View(source.Value(), sourcePath).Dangling?;
      match inode {
        case None =>
          return Err(NotFound);
        case Some(Dir(_)) =>
          return Err(IsADirectory);
        case Some(LeafId(id)) =>
          r := PlaceLeaf(dest, source.leaves[id]);
      }
    }

    /** Points the path at the leaf another path of the same tree points at; the two share one id. */
    method HardlinkInTree(tree: FileSystem, source: Path) returns (r: Outcome)
      requires Valid(tree.Value())
      modifies tree`root
      ensures r == if SplitError(old(tree.root), source).Some? then Err(SplitError(old(tree.root), source).value)
                   else if View(old(tree.Value()), source) == Absent then Err(NotFound)
                   else if HasDir(old(tree.Value()), source) then Err(IsADirectory)
                   else OutcomeOf(SplitError(old(tree.root), path))
      ensures r.Ok? ==> BecamePlaced(tree.Value(), old(tree.Value()), path, View(old(tree.Value()), source))
                        && At(tree.root, path) == At(old(tree.root), source)
      ensures r.Err? ==> tree.Value() == old(tree.Value())
      ensures Valid(tree.Value())
    {
      var error := SplitError(tree.root, source);
      if error.Some? {
        return Err(error.value);
      }
      var inode := At(tree.root, source);
      assert !View(tree.Value(), source).Dangling?;
      match inode {
        case None =>
          return Err(NotFound);
        case Some(Dir(_)) =>
          return Err(IsADirectory);
        case Some(LeafId(id)) =>
          error := SplitError(tree.root, path);
          if error.Some? {
            return Err(error.value);
          }
          PutPlaces(tree.Value(), path, LeafId(id));
          PutIsFound(tree.root, path, LeafId(id));
          tree.root := PutInode(tree.root, path, LeafId(id));
          r := Ok;
      }
    }

    /** Moves whatever is at the path, with everything below it, to another path.

        The entry is taken out before the new place is looked for: if the new parent directory is missing, or lies
        inside what is moved, the call fails and the entry is gone.
      */
    method RenameInTree(tree: FileSystem, newPath: Path) returns (r: Outcome, handle: FileHandle)
      requires Valid(tree.Value())
      modifies tree`root
      ensures r.Ok? <==> && path != [] && View(old(tree.Value()), path) != Absent && newPath != []
                         && HasDir(old(tree.Value()), Parent(newPath)) && !Prefix(path, Parent(newPath))
      ensures r.Ok? ==> forall q :: View(tree.Value(), q) == Moved(old(tree.Value()), path, newPath, q)
      ensures r.Err? && (path == [] || View(old(tree.Value()), path) == Absent) ==> tree.Value() == old(tree.Value())
      ensures r.Err? && path != [] && View(old(tree.Value()), path) != Absent ==>
                BecamePlaced(tree.Value(), old(tree.Value()), path, Absent)
      ensures handle.path == if r.Ok? then newPath else path
      ensures Valid(tree.Value())
    {
      hide Valid;
      handle := this;
      ghost var before := tree.Value();
      PresentIsReachable(before, path);
      var error := SplitError(tree.root, path);
      if error.Some? {
        return Err(error.value), handle;
      }
      var inode := At(tree.root, path);
      if inode.None? {
        return Err(NotFound), handle;
      }
      RemovePlaces(before, path);
      tree.root := RemoveInode(tree.root, path);
      RemovalStaysValid(tree.Value(), before, path);
      ParentAfterRemoval(tree.Value(), before, path, newPath);
      SplitNeedsParent(tree.Value(), newPath);
      error := SplitError(tree.root, newPath);
      if error.Some? {
        return Err(error.value), handle;
      }
      forall q
        ensures View(Tree(PutInode(tree.root, newPath, inode.value), tree.leaves), q) == Moved(before, path, newPath, q)
      {
        PutGrafts(tree.Value(), newPath, inode.value, q);
        if Prefix(newPath, q) {
          ViewThrough(before.leaves, before.root, path, q[|newPath|..]);
        }
      }
      MoveStaysValid(Tree(PutInode(tree.root, newPath, inode.value), tree.leaves), before, path, newPath);
      tree.root := PutInode(tree.root, newPath, inode.value);
      return Ok, FileHandle(newPath);
    }

    /** Removes whatever is at the path; a missing entry is no error, a missing parent is. */
    method RemoveInTree(tree: FileSystem) returns (r: Outcome)
      requires Valid(tree.Value())
      modifies tree`root
      ensures r == OutcomeOf(SplitError(old(tree.root), path))
      ensures r.Ok? ==> BecamePlaced(tree.Value(), old(tree.Value()), path, Absent)
      ensures r.Err? ==> tree.Value() == old(tree.Value())
      ensures Valid(tree.Value())
    {
      var error := SplitError(tree.root, path);
      if error.Some? {
        return Err(error.value);
      }
      RemovePlaces(tree.Value(), path);
      tree.root := RemoveInode(tree.root, path);
      r := Ok;
    }
  }

  function OutcomeOf(error: Option<RepoError>): Outcome {
    if error.Some? then Err(error.value) else Ok
  }
}
