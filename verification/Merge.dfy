/** The three-way merge of a configuration tree.

    `base` is the configuration both sides started from, `new` the package's, `live` the user's.  The source
    replays the user's changes on a copy of `new`.  The specification, Merged, says for every path what must be
    found there afterwards, from the three views alone; MergeSucceeds says exactly when the replay goes through.
  */
module Merge {
  import opened Basics
  import opened Paths
  import opened Trees
  import opened Diff

  datatype MergeResult = MergeResult(tree: FileSystem, conflicts: seq<Path>)

  datatype MergeOutcome = Merge(result: MergeResult) | Failed(error: RepoError)

  const SUFFIX := ".upac-new"

  /** Where the package's version of a conflicting file is kept. */
  function Sidecar(p: Path): Path {
    if p == [] then [] else Parent(p) + [Last(p) + SUFFIX]
  }

  // ---- What the merge must do --------------------------------------------------------------------

  /** `to` has a file at `p` that `from` lacks or has with other content. */
  predicate Edited(from: Tree, to: Tree, p: Path) {
    IsChange(View(from, p), View(to, p), Added) || IsChange(View(from, p), View(to, p), Modified)
  }

  predicate Deleted(from: Tree, to: Tree, p: Path) {
    IsChange(View(from, p), View(to, p), Removed)
  }

  /** Both sides wrote the file. */
  predicate Clash(base: Tree, new_: Tree, live: Tree, p: Path) {
    Edited(base, live, p) && Edited(base, new_, p)
  }

  /** The user changed a file that the package wrote as well. */
  predicate IsConflict(base: Tree, new_: Tree, live: Tree, p: Path) {
    (Edited(base, live, p) || Deleted(base, live, p)) && Edited(base, new_, p)
  }

  /** The user deleted a file that the package left alone. */
  predicate DeletedAlone(base: Tree, new_: Tree, live: Tree, p: Path) {
    Deleted(base, live, p) && !Edited(base, new_, p) && !Deleted(base, new_, p)
  }

  /** The merge acts at `p` on the user's behalf. */
  predicate Touched(base: Tree, new_: Tree, live: Tree, p: Path) {
    Edited(base, live, p) || DeletedAlone(base, new_, live, p)
  }

  predicate ParentIsDir(t: Tree, p: Path) {
    p != [] && HasDir(t, Parent(p))
  }

  ghost predicate MergeSucceeds(base: Tree, new_: Tree, live: Tree, sidecars: bool) {
    && (forall p :: Edited(base, live, p) ==> ParentIsDir(new_, p))
    && (sidecars ==>
          forall p, q ::
            Clash(base, new_, live, p) && Touched(base, new_, live, q) ==> !Above(Sidecar(p), q))
  }

  ghost predicate BelowEdit(base: Tree, live: Tree, q: Path) {
    exists p :: Edited(base, live, p) && Above(p, q)
  }

  ghost predicate IsSidecarOf(base: Tree, new_: Tree, live: Tree, p: Path, q: Path) {
    Clash(base, new_, live, p) && Sidecar(p) == q
  }

  ghost predicate BelowSidecar(base: Tree, new_: Tree, live: Tree, q: Path) {
    exists p :: Clash(base, new_, live, p) && Above(Sidecar(p), q)
  }

  /** What the merged tree must hold at `q`. */
  ghost function Merged(base: Tree, new_: Tree, live: Tree, sidecars: bool, q: Path): Node {
    if Edited(base, live, q) then View(live, q)
    else if DeletedAlone(base, new_, live, q) || BelowEdit(base, live, q) then Absent
    else if sidecars && exists p :: IsSidecarOf(base, new_, live, p, q) then
      var p :| IsSidecarOf(base, new_, live, p, q);
      View(new_, p)
    else if sidecars && BelowSidecar(base, new_, live, q) then Absent
    else View(new_, q)
  }

  // ---- Sequences of edits --------------------------------------------------------------------------

  datatype Edit = Put(path: Path, leaf: Leaf) | Delete(path: Path) {
    function Node(): Node {
      match this
      case Put(_, leaf) => LeafNode(leaf)
      case Delete(_) => Absent
    }
  }

  /** The view after the edits: the last edit at or above a path decides. */
  ghost function Replayed(t: Tree, edits: seq<Edit>, q: Path): Node {
    if edits == [] then View(t, q)
    else
      var last := edits[|edits| - 1];
      if q == last.path then last.Node()
      else if Above(last.path, q) then Absent
      else Replayed(t, edits[..|edits| - 1], q)
  }

  /** No edit lacks its parent directory when its turn comes. */
  ghost predicate Applicable(t: Tree, edits: seq<Edit>) {
    forall j :: 0 <= j < |edits| ==>
      ParentIsDir(t, edits[j].path) && forall i :: 0 <= i < j ==> !Above(edits[i].path, edits[j].path)
  }

  lemma {:induction false} ReplayedDirectory(t: Tree, edits: seq<Edit>, p: Path)
    ensures Replayed(t, edits, p).DirNode?
       <==> HasDir(t, p) && forall i :: 0 <= i < |edits| ==> !Prefix(edits[i].path, p)
  {
    if edits != [] {
      var last := edits[|edits| - 1];
      ReplayedDirectory(t, edits[..|edits| - 1], p);
      assert Prefix(last.path, p) <==> p == last.path || Above(last.path, p);
      assert forall i :: 0 <= i < |edits| - 1 ==> edits[..|edits| - 1][i] == edits[i];
    }
  }

  /** The next edit finds its parent directory exactly when the sequence with it stays applicable. */
  lemma NextEdit(t: Tree, edits: seq<Edit>, e: Edit)
    requires Applicable(t, edits)
    ensures Applicable(t, edits + [e]) <==> e.path != [] && Replayed(t, edits, Parent(e.path)).DirNode?
  {
    var all := edits + [e];
    if e.path != [] {
      ReplayedDirectory(t, edits, Parent(e.path));
      forall i | 0 <= i < |edits| ensures Prefix(edits[i].path, Parent(e.path)) <==> Above(edits[i].path, e.path) {
        assert |edits[i].path| < |e.path| ==> Parent(e.path)[..|edits[i].path|] == e.path[..|edits[i].path|];
      }
    }
    if Applicable(t, all) {
      assert all[|edits|] == e;
      assert forall i :: 0 <= i < |edits| ==> all[i] == edits[i];
    }
  }

  lemma ApplicablePrefix(t: Tree, edits: seq<Edit>, more: seq<Edit>)
    requires Applicable(t, edits + more)
    ensures Applicable(t, edits)
  {
    assert forall i :: 0 <= i < |edits| ==> (edits + more)[i] == edits[i];
  }

  lemma NoEarlierAncestor(t: Tree, edits: seq<Edit>, i: nat, j: nat)
    requires Applicable(t, edits) && i < j < |edits|
    ensures !Above(edits[i].path, edits[j].path)
  {
  }

  /** The deciding edit of a path, or -1. */
  lemma {:induction false} LastTouch(t: Tree, edits: seq<Edit>, q: Path) returns (k: int)
    ensures -1 <= k < |edits|
    ensures forall j :: k < j < |edits| ==> !Prefix(edits[j].path, q)
    ensures k == -1 ==> Replayed(t, edits, q) == View(t, q)
    ensures k >= 0 ==> Prefix(edits[k].path, q)
                       && Replayed(t, edits, q) == if edits[k].path == q then edits[k].Node() else Absent
  {
    if edits == [] {
      k := -1;
    } else {
      var last := edits[|edits| - 1];
      assert Prefix(last.path, q) <==> q == last.path || Above(last.path, q);
      if Prefix(last.path, q) {
        k := |edits| - 1;
      } else {
        k := LastTouch(t, edits[..|edits| - 1], q);
        assert forall i :: 0 <= i < |edits| - 1 ==> edits[..|edits| - 1][i] == edits[i];
      }
    }
  }

  // ---- The edits of a merge ------------------------------------------------------------------------

  /** The three trees, whether sidecars are written, and the user's changes. */
  datatype Inputs = Inputs(base: Tree, new_: Tree, live: Tree, sidecars: bool, user: seq<Change>)

  ghost predicate Coherent(m: Inputs) {
    Valid(m.base) && Valid(m.new_) && Valid(m.live) && IsDiff(m.user, m.base, m.live)
  }

  function OwnEdits(m: Inputs, c: Change): seq<Edit> {
    if c.kind == Removed then
      if DeletedAlone(m.base, m.new_, m.live, c.path) then [Delete(c.path)] else []
    else if HasLeaf(m.live, c.path) then [Put(c.path, View(m.live, c.path).leaf)]
    else []
  }

  function SidecarEdits(m: Inputs, c: Change): seq<Edit> {
    if m.sidecars && c.kind != Removed && Edited(m.base, m.new_, c.path)
    then [Put(Sidecar(c.path), View(m.new_, c.path).leaf)] else []
  }

  function EditsFor(m: Inputs, c: Change): seq<Edit> {
    SidecarEdits(m, c) + OwnEdits(m, c)
  }

  function AllEdits(m: Inputs, n: nat): seq<Edit>
    requires n <= |m.user|
  {
    if n == 0 then [] else AllEdits(m, n - 1) + EditsFor(m, m.user[n - 1])
  }

  lemma {:induction false} BlockStart(m: Inputs, i: nat, n: nat)
    requires i <= n <= |m.user|
    ensures AllEdits(m, i) <= AllEdits(m, n)
    decreases n - i
  {
    hide EditsFor;
    if i < n {
      BlockStart(m, i + 1, n);
      assert AllEdits(m, i) <= AllEdits(m, i + 1);
    }
  }

  lemma BlocksAreOrdered(m: Inputs, x: nat, i: nat, y: nat, j: nat)
    requires x < |m.user| && |AllEdits(m, x)| <= i < |AllEdits(m, x + 1)|
    requires y < |m.user| && |AllEdits(m, y)| <= j < |AllEdits(m, y + 1)|
    ensures i < j ==> x <= y
  {
    hide EditsFor;
    if y < x {
      BlockStart(m, y + 1, x);
    }
  }

  /** Which change the k-th edit comes from. */
  lemma {:induction false} Origin(m: Inputs, n: nat, k: nat) returns (i: nat)
    requires n <= |m.user| && k < |AllEdits(m, n)|
    ensures i < n && |AllEdits(m, i)| <= k < |AllEdits(m, i + 1)|
    ensures AllEdits(m, n)[k] in EditsFor(m, m.user[i])
  {
    hide EditsFor;
    if k < |AllEdits(m, n - 1)| {
      i := Origin(m, n - 1, k);
    } else {
      i := n - 1;
      assert AllEdits(m, n)[k] == EditsFor(m, m.user[i])[k - |AllEdits(m, i)|];
    }
  }

  /** Every edit of a change is found in that change's block. */
  lemma Locate(m: Inputs, i: nat, e: Edit) returns (k: nat)
    requires i < |m.user| && e in EditsFor(m, m.user[i])
    ensures |AllEdits(m, i)| <= k < |AllEdits(m, i + 1)| <= |AllEdits(m, |m.user|)|
    ensures AllEdits(m, |m.user|)[k] == e
  {
    hide EditsFor;
    var x :| 0 <= x < |EditsFor(m, m.user[i])| && EditsFor(m, m.user[i])[x] == e;
    k := |AllEdits(m, i)| + x;
    BlockStart(m, i + 1, |m.user|);
    assert AllEdits(m, i + 1)[k] == e;
  }

  lemma UserChange(m: Inputs, p: Path, kind: Kind) returns (i: nat)
    requires Coherent(m) && IsChange(View(m.base, p), View(m.live, p), kind)
    ensures i < |m.user| && m.user[i] == Change(p, kind)
  {
    DiffReports(m.user, m.base, m.live, Change(p, kind));
    i :| 0 <= i < |m.user| && m.user[i] == Change(p, kind);
  }

  lemma ReportedChange(m: Inputs, i: nat)
    requires Coherent(m) && i < |m.user|
    ensures IsChange(View(m.base, m.user[i].path), View(m.live, m.user[i].path), m.user[i].kind)
    ensures m.user[i].path != []
  {
    DiffReports(m.user, m.base, m.live, m.user[i]);
    assert View(m.base, []).DirNode? && View(m.live, []).DirNode?;
  }

  lemma SidecarFacts(p: Path, q: Path)
    requires p != [] && q != []
    ensures |Sidecar(p)| == |p| && Parent(Sidecar(p)) == Parent(p)
    ensures Sidecar(p) == Sidecar(q) ==> p == q
    ensures Above(q, Sidecar(p)) <==> Above(q, p)
  {
    assert p == Parent(p) + [Last(p)] && q == Parent(q) + [Last(q)];
    assert Sidecar(p)[..|p| - 1] == Parent(p);
    assert Sidecar(p)[|p| - 1] == Last(p) + SUFFIX && Sidecar(q)[|q| - 1] == Last(q) + SUFFIX;
    if Sidecar(p) == Sidecar(q) {
      assert Parent(p) == Sidecar(p)[..|p| - 1] == Sidecar(q)[..|q| - 1] == Parent(q);
      assert (Last(p) + SUFFIX)[..|Last(p)|] == Last(p) && (Last(q) + SUFFIX)[..|Last(q)|] == Last(q);
      assert |Last(p)| + |SUFFIX| == |Last(q)| + |SUFFIX|;
    }
    if |q| < |p| {
      assert Sidecar(p)[..|q|] == Parent(p)[..|q|] == p[..|q|];
    }
  }

  /** A sidecar is written before any change at or below its name. */
  lemma SidecarComesFirst(m: Inputs, i: nat, j: nat)
    requires Coherent(m) && i < |m.user| && j < |m.user|
    requires Prefix(Sidecar(m.user[i].path), m.user[j].path)
    ensures i < j
  {
    var p, q := m.user[i], m.user[j];
    ReportedChange(m, i);
    var d, n := Parent(p.path), Last(p.path);
    assert p.path == d + [n];
    LessExtension(n, SUFFIX);
    BeforeByName(d, n, n + SUFFIX, p, q);
    BeforeIsStrict(p, q);
    assert j < i ==> Before(q, p);
  }

  // ---- When it succeeds ----------------------------------------------------------------------------

  lemma LeafBlocks(t: Tree, p: Path, q: Path)
    requires HasLeaf(t, p) && Above(p, q)
    ensures View(t, q) == Absent && !ParentIsDir(t, q)
  {
    NothingBelowNonDirectory(t.leaves, t.root, p, q);
    assert q[..|p|] == Parent(q)[..|p|];
    if Parent(q) != p {
      NothingBelowNonDirectory(t.leaves, t.root, p, Parent(q));
    }
  }

  lemma DeletedAloneIsLeaf(m: Inputs, p: Path)
    requires Coherent(m) && DeletedAlone(m.base, m.new_, m.live, p)
    ensures HasLeaf(m.new_, p) && ParentIsDir(m.new_, p)
  {
    hide View;
    assert !View(m.new_, p).Dangling?;
    RootIsDirectory(m.base);
    assert HasLeaf(m.new_, p);
    assert p[..|p| - 1] == Parent(p);
    AncestorsAreDirectories(m.new_, Parent(p), p);
  }

  /** No user edit of one change stands in the way of a later change. */
  lemma OwnEditsDoNotBlock(m: Inputs, i: nat, j: nat, e: Edit)
    requires Coherent(m) && i < j < |m.user|
    requires e in OwnEdits(m, m.user[i]) && Above(e.path, m.user[j].path)
    ensures m.user[j].kind != Removed && !ParentIsDir(m.new_, m.user[j].path)
  {
    hide View, AllEdits;
    var a, b := m.user[i], m.user[j];
    ReportedChange(m, i);
    ReportedChange(m, j);
    assert Before(a, b);
    BeforeAndAbove(a, b);
    assert a.kind == Removed && b.kind == Added;
    DeletedAloneIsLeaf(m, a.path);
    LeafBlocks(m.new_, a.path, b.path);
  }

  lemma SucceedsIsApplicable(m: Inputs)
    requires Coherent(m) && MergeSucceeds(m.base, m.new_, m.live, m.sidecars)
    ensures Applicable(m.new_, AllEdits(m, |m.user|))
  {
    hide View, Replayed, AllEdits;
    var edits := AllEdits(m, |m.user|);
    forall j | 0 <= j < |edits|
      ensures ParentIsDir(m.new_, edits[j].path) && forall i :: 0 <= i < j ==> !Above(edits[i].path, edits[j].path)
    {
      var y := Origin(m, |m.user|, j);
      var c := m.user[y];
      ReportedChange(m, y);
      SidecarFacts(c.path, c.path);
      if c.kind == Removed {
        DeletedAloneIsLeaf(m, c.path);
      } else {
        assert Edited(m.base, m.live, c.path);
      }
      forall i | 0 <= i < j ensures !Above(edits[i].path, edits[j].path) {
        var x := Origin(m, |m.user|, i);
        BlocksAreOrdered(m, x, i, y, j);
        if Above(edits[i].path, edits[j].path) {
          EarlierEditDoesNotBlock(m, x, y, edits[i], edits[j]);
        }
      }
    }
  }

  /** An edit has the ancestors of the change it was made for. */
  lemma EditPath(m: Inputs, c: Change, e: Edit, d: Path)
    requires c.path != [] && e in EditsFor(m, c)
    ensures |e.path| == |c.path|
    ensures d != [] && Above(d, e.path) ==> Above(d, c.path)
  {
    hide View, IsChange, Sidecar, Above;
    SidecarFacts(c.path, if d == [] then c.path else d);
    assert e in SidecarEdits(m, c) || e in OwnEdits(m, c);
  }

  lemma EarlierEditDoesNotBlock(m: Inputs, x: nat, y: nat, e: Edit, f: Edit)
    requires Coherent(m) && MergeSucceeds(m.base, m.new_, m.live, m.sidecars)
    requires x < |m.user| && y < |m.user|
    requires e in EditsFor(m, m.user[x]) && f in EditsFor(m, m.user[y]) && Above(e.path, f.path)
    ensures x > y
  {
    hide View, AllEdits, Sidecar, Coherent, MergeSucceeds;
    var a, c := m.user[x], m.user[y];
    ReportedChange(m, x);
    ReportedChange(m, y);
    EditPath(m, a, e, []);
    EditPath(m, c, f, e.path);
    NoSidecarAbove(m, a.path, c.path);
    assert e in SidecarEdits(m, a) || e in OwnEdits(m, a);
    assert f in SidecarEdits(m, c) || f in OwnEdits(m, c);
    if x < y && e in OwnEdits(m, a) {
      OwnEditsDoNotBlock(m, x, y, e);
    }
  }

  lemma NoSidecarAbove(m: Inputs, p: Path, q: Path)
    requires MergeSucceeds(m.base, m.new_, m.live, m.sidecars)
    ensures m.sidecars && Clash(m.base, m.new_, m.live, p) && Touched(m.base, m.new_, m.live, q) ==>
              !Above(Sidecar(p), q)
    ensures Edited(m.base, m.live, q) ==> ParentIsDir(m.new_, q)
  {
  }

  lemma ApplicableSucceeds(m: Inputs)
    requires Coherent(m) && Applicable(m.new_, AllEdits(m, |m.user|))
    ensures MergeSucceeds(m.base, m.new_, m.live, m.sidecars)
  {
    hide View, Replayed, AllEdits;
    var edits := AllEdits(m, |m.user|);
    forall p | Edited(m.base, m.live, p) ensures ParentIsDir(m.new_, p) {
      var i, k := OwnEditOf(m, p);
    }
    if m.sidecars {
      forall p, q | Clash(m.base, m.new_, m.live, p) && Touched(m.base, m.new_, m.live, q)
        ensures !Above(Sidecar(p), q)
      {
        if Above(Sidecar(p), q) {
          var i, _ := OwnEditOf(m, p);
          var j, l := OwnEditOf(m, q);
          SidecarComesFirst(m, i, j);
          var k := Locate(m, i, Put(Sidecar(p), View(m.new_, p).leaf));
          BlockStart(m, i + 1, j);
          NoEarlierAncestor(m.new_, edits, k, l);
        }
      }
    }
  }

  /** The position of the edit that a user's change makes at its own path. */
  lemma OwnEditOf(m: Inputs, p: Path) returns (i: nat, k: nat)
    requires Coherent(m) && Touched(m.base, m.new_, m.live, p)
    ensures i < |m.user| && m.user[i].path == p
    ensures m.user[i].kind == Removed <==> !Edited(m.base, m.live, p)
    ensures |AllEdits(m, i)| <= k < |AllEdits(m, i + 1)| <= |AllEdits(m, |m.user|)|
    ensures AllEdits(m, |m.user|)[k]
         == if Edited(m.base, m.live, p) then Put(p, View(m.live, p).leaf) else Delete(p)
  {
    hide View, AllEdits;
    var kind := if Deleted(m.base, m.live, p) then Removed
                else if IsChange(View(m.base, p), View(m.live, p), Added) then Added else Modified;
    i := UserChange(m, p, kind);
    var e := if Edited(m.base, m.live, p) then Put(p, View(m.live, p).leaf) else Delete(p);
    assert OwnEdits(m, m.user[i]) == [e];
    k := Locate(m, i, e);
  }

  // ---- What it produces ----------------------------------------------------------------------------

  /** What an edit of the merge can be: the user's own, or a sidecar. */
  lemma EditKinds(m: Inputs, k: nat) returns (i: nat)
    requires Coherent(m) && k < |AllEdits(m, |m.user|)|
    ensures i < |m.user| && |AllEdits(m, i)| <= k < |AllEdits(m, i + 1)|
    ensures m.user[i].path != []
    ensures var e, p := AllEdits(m, |m.user|)[k], m.user[i].path;
            || (Edited(m.base, m.live, p) && e == Put(p, View(m.live, p).leaf))
            || (DeletedAlone(m.base, m.new_, m.live, p) && e == Delete(p))
            || (m.sidecars && Clash(m.base, m.new_, m.live, p) && e == Put(Sidecar(p), View(m.new_, p).leaf))
  {
    hide View, AllEdits;
    i := Origin(m, |m.user|, k);
    ReportedChange(m, i);
  }

  /** A sidecar never decides at a path that the user changed. */
  lemma SidecarDoesNotDecide(m: Inputs, k: nat, p: Path, q: Path)
    requires Coherent(m) && k < |AllEdits(m, |m.user|)|
    requires forall j :: k < j < |AllEdits(m, |m.user|)| ==> !Prefix(AllEdits(m, |m.user|)[j].path, q)
    requires Touched(m.base, m.new_, m.live, q)
    requires AllEdits(m, |m.user|)[k].path == q
    ensures exists i :: 0 <= i < |m.user| && m.user[i].path == q && AllEdits(m, |m.user|)[k] in OwnEdits(m, m.user[i])
  {
    hide View, AllEdits, EditsFor;
    var i := EditKinds(m, k);
    if m.user[i].path != q {
      var j, l := OwnEditOf(m, q);
      SidecarComesFirst(m, i, j);
      BlockStart(m, i + 1, j);
      assert false;
    } else {
      SidecarFacts(q, q);
      assert Last(q) != Last(q) + SUFFIX;
      assert Sidecar(q) != q by {
        assert Sidecar(q)[|q| - 1] == Last(q) + SUFFIX;
      }
      ReportedChange(m, i);
      assert AllEdits(m, |m.user|)[k] in OwnEdits(m, m.user[i]);
    }
  }

  lemma MergedAtEdit(m: Inputs, q: Path)
    requires Coherent(m) && MergeSucceeds(m.base, m.new_, m.live, m.sidecars)
    requires Touched(m.base, m.new_, m.live, q)
    ensures Replayed(m.new_, AllEdits(m, |m.user|), q) == Merged(m.base, m.new_, m.live, m.sidecars, q)
  {
    hide View, Replayed, AllEdits;
    var edits := AllEdits(m, |m.user|);
    var k := LastTouch(m.new_, edits, q);
    var j, l := OwnEditOf(m, q);
    assert Prefix(edits[l].path, q);
    if edits[k].path == q {
      SidecarDoesNotDecide(m, k, q, q);
      var i :| 0 <= i < |m.user| && m.user[i].path == q && edits[k] in OwnEdits(m, m.user[i]);
      EachPathOnce(m.user, i, j);
    } else if Edited(m.base, m.live, q) {
      var i := EditKinds(m, k);
      var p := m.user[i].path;
      if Edited(m.base, m.live, p) && edits[k].path == p {
        LeafBlocks(m.live, p, q);
      } else if DeletedAlone(m.base, m.new_, m.live, p) && edits[k].path == p {
        DeletedAloneIsLeaf(m, p);
        LeafBlocks(m.new_, p, q);
      }
      assert false;
    }
  }

  lemma MergedElsewhere(m: Inputs, q: Path)
    requires Coherent(m) && MergeSucceeds(m.base, m.new_, m.live, m.sidecars)
    requires !Touched(m.base, m.new_, m.live, q)
    ensures Replayed(m.new_, AllEdits(m, |m.user|), q) == Merged(m.base, m.new_, m.live, m.sidecars, q)
  {
    hide View, Replayed, AllEdits;
    var edits := AllEdits(m, |m.user|);
    var k := LastTouch(m.new_, edits, q);
    if BelowEdit(m.base, m.live, q) {
      var p :| Edited(m.base, m.live, p) && Above(p, q);
      var _, l := OwnEditOf(m, p);
      assert Prefix(edits[l].path, q);
      if edits[k].path == q {
        var i := EditKinds(m, k);
        SidecarFacts(m.user[i].path, p);
        LeafBlocks(m.live, p, m.user[i].path);
        assert false;
      }
    } else if m.sidecars && exists p :: IsSidecarOf(m.base, m.new_, m.live, p, q) {
      forall p | IsSidecarOf(m.base, m.new_, m.live, p, q)
        ensures Replayed(m.new_, edits, q) == View(m.new_, p)
      {
        MergedAtSidecar(m, p, q, k);
      }
    } else if m.sidecars && BelowSidecar(m.base, m.new_, m.live, q) {
      var p :| Clash(m.base, m.new_, m.live, p) && Above(Sidecar(p), q);
      var l := SidecarEditOf(m, p);
      assert Prefix(edits[l].path, q);
      var i := EditKinds(m, k);
      SidecarWitness(m, m.user[i].path, q);
    } else if k >= 0 {
      var i := EditKinds(m, k);
      var p := m.user[i].path;
      assert Above(edits[k].path, q) || edits[k].path == q;
      SidecarWitness(m, p, q);
      if DeletedAlone(m.base, m.new_, m.live, p) && edits[k].path == p {
        DeletedAloneIsLeaf(m, p);
        LeafBlocks(m.new_, p, q);
      }
    }
  }

  lemma SidecarWitness(m: Inputs, p: Path, q: Path)
    ensures IsSidecarOf(m.base, m.new_, m.live, p, q) <==> Clash(m.base, m.new_, m.live, p) && Sidecar(p) == q
  {
  }

  lemma SidecarEditOf(m: Inputs, p: Path) returns (k: nat)
    requires Coherent(m) && m.sidecars && Clash(m.base, m.new_, m.live, p)
    ensures k < |AllEdits(m, |m.user|)| && AllEdits(m, |m.user|)[k] == Put(Sidecar(p), View(m.new_, p).leaf)
  {
    hide View, AllEdits;
    var i, _ := OwnEditOf(m, p);
    k := Locate(m, i, Put(Sidecar(p), View(m.new_, p).leaf));
  }

  lemma MergedAtSidecar(m: Inputs, p: Path, q: Path, k: int)
    requires Coherent(m) && MergeSucceeds(m.base, m.new_, m.live, m.sidecars) && m.sidecars
    requires !Touched(m.base, m.new_, m.live, q) && !BelowEdit(m.base, m.live, q)
    requires IsSidecarOf(m.base, m.new_, m.live, p, q)
    requires -1 <= k < |AllEdits(m, |m.user|)|
    requires forall j :: k < j < |AllEdits(m, |m.user|)| ==> !Prefix(AllEdits(m, |m.user|)[j].path, q)
    requires k >= 0 ==> Prefix(AllEdits(m, |m.user|)[k].path, q)
    ensures k >= 0 && AllEdits(m, |m.user|)[k].path == q && AllEdits(m, |m.user|)[k].Node() == View(m.new_, p)
  {
    hide View, Replayed, AllEdits;
    var edits := AllEdits(m, |m.user|);
    var l := SidecarEditOf(m, p);
    assert Prefix(edits[l].path, q);
    var i := EditKinds(m, k);
    var r, e := m.user[i].path, edits[k];
    RootIsDirectory(m.base);
    RootIsDirectory(m.new_);
    SidecarFacts(p, r);
    assert Edited(m.base, m.live, r) && Above(r, q) ==> BelowEdit(m.base, m.live, q);
    assert Touched(m.base, m.new_, m.live, p);
    if e.path != q {
      assert Above(e.path, q);
      SidecarFacts(p, if e.path == [] then p else e.path);
      SidecarFacts(r, r);
      assert Above(e.path, p);
      if e.path == r && DeletedAlone(m.base, m.new_, m.live, r) {
        DeletedAloneIsLeaf(m, r);
        LeafBlocks(m.new_, r, p);
      }
      assert false;
    }
  }

  lemma SucceedsIffApplicable(m: Inputs)
    requires Coherent(m)
    ensures Applicable(m.new_, AllEdits(m, |m.user|)) <==> MergeSucceeds(m.base, m.new_, m.live, m.sidecars)
  {
    hide View, AllEdits, Applicable, MergeSucceeds;
    if MergeSucceeds(m.base, m.new_, m.live, m.sidecars) {
      SucceedsIsApplicable(m);
    } else if Applicable(m.new_, AllEdits(m, |m.user|)) {
      ApplicableSucceeds(m);
    }
  }

  /** The main theorem on values: replaying the user's changes yields the three-way merge, at every path. */
  lemma ReplayIsMerge(m: Inputs, q: Path)
    requires Coherent(m) && Applicable(m.new_, AllEdits(m, |m.user|))
    ensures Replayed(m.new_, AllEdits(m, |m.user|), q) == Merged(m.base, m.new_, m.live, m.sidecars, q)
  {
    hide View, AllEdits, Applicable, MergeSucceeds;
    SucceedsIffApplicable(m);
    if Touched(m.base, m.new_, m.live, q) {
      MergedAtEdit(m, q);
    } else {
      MergedElsewhere(m, q);
    }
  }

  // ---- The merge as the source runs it -------------------------------------------------------------

  /** The paths of the first `n` user changes that are conflicts, in the order of the diff. */
  function ConflictPaths(m: Inputs, n: nat): seq<Path>
    requires n <= |m.user|
  {
    if n == 0 then []
    else
      var p := m.user[n - 1].path;
      ConflictPaths(m, n - 1) + if Edited(m.base, m.new_, p) then [p] else []
  }

  lemma {:induction false} ConflictPathsAreFound(m: Inputs, n: nat, p: Path)
    requires n <= |m.user|
    ensures p in ConflictPaths(m, n) <==> Edited(m.base, m.new_, p) && exists i :: 0 <= i < n && m.user[i].path == p
    decreases n
  {
    if n > 0 {
      ConflictPathsAreFound(m, n - 1, p);
    }
  }

  lemma ConflictsAreExact(m: Inputs, p: Path)
    requires Coherent(m)
    ensures p in ConflictPaths(m, |m.user|) <==> IsConflict(m.base, m.new_, m.live, p)
  {
    ConflictPathsAreFound(m, |m.user|, p);
    if IsConflict(m.base, m.new_, m.live, p) {
      var kind := if Deleted(m.base, m.live, p) then Removed
                  else if IsChange(View(m.base, p), View(m.live, p), Added) then Added else Modified;
      var i := UserChange(m, p, kind);
    }
    if p in ConflictPaths(m, |m.user|) {
      var i :| 0 <= i < |m.user| && m.user[i].path == p;
      ReportedChange(m, i);
    }
  }

  lemma {:induction false} ConflictsAreDistinct(m: Inputs, n: nat, i: nat, j: nat)
    requires Coherent(m) && n <= |m.user| && i < j < |ConflictPaths(m, n)|
    ensures ConflictPaths(m, n)[i] != ConflictPaths(m, n)[j]
    decreases n
  {
    hide View;
    if j < |ConflictPaths(m, n - 1)| {
      ConflictsAreDistinct(m, n - 1, i, j);
    } else {
      var p := ConflictPaths(m, n)[i];
      assert p == ConflictPaths(m, n - 1)[i];
      ConflictPathsAreFound(m, n - 1, p);
      var k :| 0 <= k < n - 1 && m.user[k].path == p;
      if p == m.user[n - 1].path {
        EachPathOnce(m.user, k, n - 1);
      }
    }
  }

  /** The map holds the first `n` changes. */
  ghost predicate Collected(kinds: map<Path, Kind>, changes: seq<Change>, n: nat)
    requires n <= |changes|
  {
    && (forall p :: p in kinds ==> exists j :: 0 <= j < n && changes[j] == Change(p, kinds[p]))
    && forall j :: 0 <= j < n ==> changes[j].path in kinds && kinds[changes[j].path] == changes[j].kind
  }

  lemma CollectOneMore(kinds: map<Path, Kind>, changes: seq<Change>, n: nat)
    requires Ordered(changes) && n < |changes| && Collected(kinds, changes, n)
    ensures Collected(kinds[changes[n].path := changes[n].kind], changes, n + 1)
  {
    hide Ordered;
    forall j | 0 <= j < n ensures changes[j].path != changes[n].path {
      if changes[j].path == changes[n].path {
        EachPathOnce(changes, n, j);
      }
    }
  }

  lemma AllCollected(kinds: map<Path, Kind>, changes: seq<Change>, c: Change)
    requires Collected(kinds, changes, |changes|)
    ensures c.path in kinds && kinds[c.path] == c.kind <==> c in changes
  {
  }

  /** The changes as a map from path to kind. */
  method CollectChanges(changes: seq<Change>) returns (kinds: map<Path, Kind>)
    requires Ordered(changes)
    ensures forall p, k :: p in kinds && kinds[p] == k <==> Change(p, k) in changes
  {
    hide Ordered, Collected;
    kinds := map[];
    NothingCollected(changes);
    for i := 0 to |changes|
      invariant Collected(kinds, changes, i)
    {
      CollectOneMore(kinds, changes, i);
      kinds := kinds[changes[i].path := changes[i].kind];
    }
    forall p, k ensures p in kinds && kinds[p] == k <==> Change(p, k) in changes {
      AllCollected(kinds, changes, Change(p, k));
    }
  }

  lemma NothingCollected(changes: seq<Change>)
    ensures Collected(map[], changes, 0)
  {
  }

  lemma KindsOfPackage(m: Inputs, package: seq<Change>, kinds: map<Path, Kind>, p: Path)
    requires IsDiff(package, m.base, m.new_)
    requires forall p, k :: p in kinds && kinds[p] == k <==> Change(p, k) in package
    ensures Edited(m.base, m.new_, p) <==> p in kinds && kinds[p] != Removed
    ensures Deleted(m.base, m.new_, p) <==> p in kinds && kinds[p] == Removed
  {
    hide View;
    forall k: Kind ensures IsChange(View(m.base, p), View(m.new_, p), k) <==> p in kinds && kinds[p] == k {
      DiffReports(package, m.base, m.new_, Change(p, k));
    }
  }

  ghost predicate Holds(tree: Tree, t: Tree, edits: seq<Edit>) {
    forall q :: View(tree, q) == Replayed(t, edits, q)
  }

  lemma EditHolds(tree': Tree, tree: Tree, t: Tree, edits: seq<Edit>, e: Edit)
    requires Holds(tree, t, edits) && BecamePlaced(tree', tree, e.path, e.Node())
    ensures Holds(tree', t, edits + [e])
  {
    hide View;
    forall q ensures View(tree', q) == Replayed(t, edits + [e], q) {
      assert (edits + [e])[..|edits|] == edits;
      assert View(tree, q) == Replayed(t, edits, q);
    }
  }

  lemma EditStaysApplicable(tree: Tree, t: Tree, edits: seq<Edit>, e: Edit)
    requires Holds(tree, t, edits) && Applicable(t, edits)
    ensures SplitError(tree.root, e.path) == None <==> Applicable(t, edits + [e])
  {
    hide View;
    SplitNeedsParent(tree, e.path);
    NextEdit(t, edits, e);
    if e.path != [] {
      assert View(tree, Parent(e.path)) == Replayed(t, edits, Parent(e.path));
    }
  }

  lemma StuckForGood(m: Inputs, i: nat, edits: seq<Edit>)
    requires Coherent(m) && i < |m.user|
    requires !Applicable(m.new_, AllEdits(m, i) + edits)
    requires edits <= EditsFor(m, m.user[i])
    ensures !MergeSucceeds(m.base, m.new_, m.live, m.sidecars)
  {
    hide View, Applicable, MergeSucceeds, EditsFor, Coherent;
    SucceedsIffApplicable(m);
    BlockStart(m, i + 1, |m.user|);
    var all := AllEdits(m, |m.user|);
    var more := PrefixOfPrefix(AllEdits(m, i), edits, EditsFor(m, m.user[i]), all);
    if Applicable(m.new_, all) {
      ApplicablePrefix(m.new_, AllEdits(m, i) + edits, more);
    }
  }

  lemma PrefixOfPrefix(a: seq<Edit>, edits: seq<Edit>, block: seq<Edit>, all: seq<Edit>) returns (more: seq<Edit>)
    requires edits <= block && a + block <= all
    ensures all == a + edits + more
  {
    more := all[|a| + |edits|..];
    assert edits == block[..|edits|];
    assert (a + block)[..|a| + |edits|] == a + edits;
    assert all[..|a| + |edits|] == all[..|a + block|][..|a| + |edits|];
  }

  lemma NothingReplayed(m: Inputs)
    ensures UpTo(m, m.new_, 0)
  {
  }

  lemma EndOfReplay(m: Inputs, tree: Tree)
    requires Coherent(m) && UpTo(m, tree, |m.user|)
    ensures MergeSucceeds(m.base, m.new_, m.live, m.sidecars)
    ensures forall q :: View(tree, q) == Merged(m.base, m.new_, m.live, m.sidecars, q)
  {
    hide View, Replayed, Merged, MergeSucceeds, Applicable, AllEdits;
    SucceedsIffApplicable(m);
    forall q ensures View(tree, q) == Merged(m.base, m.new_, m.live, m.sidecars, q) {
      ReplayIsMerge(m, q);
    }
  }

  lemma ConflictsAreComplete(m: Inputs)
    requires Coherent(m)
    ensures forall p :: p in ConflictPaths(m, |m.user|) <==> IsConflict(m.base, m.new_, m.live, p)
    ensures forall i, j :: 0 <= i < j < |ConflictPaths(m, |m.user|)| ==>
              ConflictPaths(m, |m.user|)[i] != ConflictPaths(m, |m.user|)[j]
  {
    hide View;
    forall p ensures p in ConflictPaths(m, |m.user|) <==> IsConflict(m.base, m.new_, m.live, p) {
      ConflictsAreExact(m, p);
    }
    forall i, j | 0 <= i < j < |ConflictPaths(m, |m.user|)|
      ensures ConflictPaths(m, |m.user|)[i] != ConflictPaths(m, |m.user|)[j]
    {
      ConflictsAreDistinct(m, |m.user|, i, j);
    }
  }

  /** The tree holds the first `i` changes of the user replayed on the package's tree. */
  ghost predicate UpTo(m: Inputs, tree: Tree, i: nat)
    requires i <= |m.user|
  {
    Applicable(m.new_, AllEdits(m, i)) && Holds(tree, m.new_, AllEdits(m, i))
  }

  /** One round of the loop of MergeConfig: a single change of the user. */
  method ReplayChange(tree: FileSystem, new_: FileSystem, live: FileSystem, packageChange: Option<Kind>,
                      allowConflictFiles: bool, change: Change, ghost m: Inputs, ghost i: nat)
      returns (outcome: Outcome, conflict: bool)
    requires tree != new_ && tree != live
    requires Valid(tree.Value()) && Coherent(m) && i < |m.user| && change == m.user[i]
    requires m.new_ == new_.Value() && m.live == live.Value() && m.sidecars == allowConflictFiles
    requires Edited(m.base, m.new_, change.path) <==> packageChange.Some? && packageChange.value != Removed
    requires Deleted(m.base, m.new_, change.path) <==> packageChange == Some(Removed)
    requires UpTo(m, tree.Value(), i)
    modifies tree
    ensures Valid(tree.Value()) && old(tree.leaves) <= tree.leaves
    ensures outcome.Ok? ==> UpTo(m, tree.Value(), i + 1)
    ensures outcome.Ok? ==> (conflict <==> Edited(m.base, m.new_, change.path))
    ensures outcome.Err? ==> !MergeSucceeds(m.base, m.new_, m.live, m.sidecars)
  {
    hide View, Replayed, Merged, MergeSucceeds, Applicable;
    var Change(path, kind) := change;
    ReportedChange(m, i);
    conflict := packageChange.Some? && packageChange.value != Removed;
    ghost var edits, before := AllEdits(m, i), tree.Value();
    if kind == Removed {
      if packageChange.Some? {
        assert AllEdits(m, i + 1) == edits;
        return Ok, conflict;
      }
      EditStaysApplicable(before, m.new_, edits, Delete(path));
      assert AllEdits(m, i + 1) == edits + [Delete(path)];
      outcome := FileHandle(path).RemoveInTree(tree);
      if outcome.Err? {
        StuckForGood(m, i, [Delete(path)]);
      } else {
        EditHolds(tree.Value(), before, m.new_, edits, Delete(path));
      }
    } else {
      if conflict && allowConflictFiles {
        ghost var e := Put(Sidecar(path), View(m.new_, path).leaf);
        EditStaysApplicable(before, m.new_, edits, e);
        LeafIsReachable(m.new_, path);
        outcome := FileHandle(Sidecar(path)).CopyFromTree(tree, new_, path);
        if outcome.Err? {
          StuckForGood(m, i, [e]);
          return;
        }
        EditHolds(tree.Value(), before, m.new_, edits, e);
        edits, before := edits + [e], tree.Value();
      }
      ghost var e := Put(path, View(m.live, path).leaf);
      assert edits + [e] == AllEdits(m, i) + EditsFor(m, change) == AllEdits(m, i + 1);
      EditStaysApplicable(before, m.new_, edits, e);
      LeafIsReachable(m.live, path);
      outcome := FileHandle(path).CopyFromTree(tree, live, path);
      if outcome.Err? {
        StuckForGood(m, i, EditsFor(m, change));
      } else {
        EditHolds(tree.Value(), before, m.new_, edits, e);
      }
    }
  }

  method MergeConfig(base: FileSystem, new_: FileSystem, live: FileSystem, allowConflictFiles: bool)
      returns (r: MergeOutcome)
    requires Valid(base.Value()) && Valid(new_.Value()) && Valid(live.Value())
    ensures r.Merge? <==> MergeSucceeds(base.Value(), new_.Value(), live.Value(), allowConflictFiles)
    ensures r.Merge? ==> fresh(r.result.tree) && Valid(r.result.tree.Value())
    ensures r.Merge? ==> new_.leaves <= r.result.tree.leaves
    ensures r.Merge? ==> forall q :: View(r.result.tree.Value(), q)
                                  == Merged(base.Value(), new_.Value(), live.Value(), allowConflictFiles, q)
    ensures r.Merge? ==> forall p :: p in r.result.conflicts
                                <==> IsConflict(base.Value(), new_.Value(), live.Value(), p)
    ensures r.Merge? ==>
              forall i, j :: 0 <= i < j < |r.result.conflicts| ==> r.result.conflicts[i] != r.result.conflicts[j]
  {
    hide View, Replayed, Merged, MergeSucceeds, Applicable, Edited, Deleted, Holds, AllEdits;
    var userChanges := TreeDiff.Run(base, live);
    var packageList := TreeDiff.Run(base, new_);
    var packageChanges := CollectChanges(packageList);
    var tree := new FileSystem.Clone(new_);
    var conflicts: seq<Path> := [];
    ghost var m := Inputs(base.Value(), new_.Value(), live.Value(), allowConflictFiles, userChanges);

    NothingReplayed(m);
    for i := 0 to |userChanges|
      invariant fresh(tree) && Valid(tree.Value()) && new_.leaves <= tree.leaves
      invariant UpTo(m, tree.Value(), i)
      invariant conflicts == ConflictPaths(m, i)
    {
      var change := userChanges[i];
      KindsOfPackage(m, packageList, packageChanges, change.path);
      var packageChange := if change.path in packageChanges then Some(packageChanges[change.path]) else None;
      var outcome, conflict := ReplayChange(tree, new_, live, packageChange, allowConflictFiles, change, m, i);
      if outcome.Err? {
        return Failed(outcome.error);
      }
      if conflict {
        conflicts := conflicts + [change.path];
      }
    }
    EndOfReplay(m, tree.Value());
    ConflictsAreComplete(m);
    r := Merge(MergeResult(tree, conflicts));
  }

  lemma LeafIsReachable(t: Tree, p: Path)
    requires HasLeaf(t, p)
    ensures SplitError(t.root, p) == None
  {
    RootIsDirectory(t);
    SplitNeedsParent(t, p);
    assert p[..|p| - 1] == Parent(p);
    AncestorsAreDirectories(t, Parent(p), p);
  }

  // ---- Consequences --------------------------------------------------------------------------------

  /** Going from one node to another puts a regular file or a link where there was none, or one with other content;
      what stood there before must not be a device, fifo or socket. */
  predicate Writes(before: Node, after: Node) {
    && after.LeafNode? && (after.leaf.content.Regular? || after.leaf.content.Symlink?)
    && (before.LeafNode? ==>
          var old_ := before.leaf.content;
          || (old_.Symlink? && old_ != after.leaf.content)
          || (old_.Regular? && (old_ != after.leaf.content || old_.file.ExternalNoVerity? || old_.file.Sparse?)))
  }

  predicate TakesAway(before: Node, after: Node) {
    && before.LeafNode? && (before.leaf.content.Regular? || before.leaf.content.Symlink?)
    && !after.LeafNode?
  }

  /** A conflict is a file that the package writes and the user writes or takes away. */
  lemma ConflictsByContent(base: Tree, new_: Tree, live: Tree, p: Path)
    ensures IsConflict(base, new_, live, p)
       <==> && Writes(View(base, p), View(new_, p))
            && (Writes(View(base, p), View(live, p)) || TakesAway(View(base, p), View(live, p)))
  {
    hide View;
  }

  /** Where both sides write a file, the user's stands under its own name.  With conflict files allowed, the package's
      stands beside it under the name with nine characters more, unless the user wrote or deleted a file of that name;
      without them, that name holds what the package has there. */
  lemma CopyIsFound(base: Tree, new_: Tree, live: Tree, sidecars: bool, p: Path)
    requires Writes(View(base, p), View(live, p)) && Writes(View(base, p), View(new_, p))
    ensures p != [] && Merged(base, new_, live, sidecars, p) == View(live, p)
    ensures var copy := p[..|p| - 1] + [p[|p| - 1] + ['.', 'u', 'p', 'a', 'c', '-', 'n', 'e', 'w']];
            if Writes(View(base, copy), View(live, copy)) then
              Merged(base, new_, live, sidecars, copy) == View(live, copy)
            else if DeletedAlone(base, new_, live, copy) then Merged(base, new_, live, sidecars, copy) == Absent
            else Merged(base, new_, live, sidecars, copy) == if sidecars then View(new_, p) else View(new_, copy)
  {
    hide View;
    RootIsDirectory(live);
    var copy := p[..|p| - 1] + [p[|p| - 1] + ['.', 'u', 'p', 'a', 'c', '-', 'n', 'e', 'w']];
    assert copy == Sidecar(p);
    forall q | q != [] ensures SidecarBelongs(p, q) {
      SidecarFacts(p, q);
    }
    forall q | Edited(base, live, q) ensures !Above(q, copy) {
      NotBelowLeaf(live, q, p);
      RootIsDirectory(live);
    }
    assert IsSidecarOf(base, new_, live, p, copy);
    forall q | IsSidecarOf(base, new_, live, q, copy) ensures q == p {
      RootIsDirectory(live);
      assert SidecarBelongs(p, q);
    }
  }

  predicate SidecarBelongs(p: Path, q: Path) {
    p != [] && q != [] && (Sidecar(p) == Sidecar(q) ==> p == q) && (Above(q, Sidecar(p)) <==> Above(q, p))
  }

  lemma NotBelowLeaf(t: Tree, p: Path, q: Path)
    requires HasLeaf(t, p) && HasLeaf(t, q)
    ensures !Above(p, q)
  {
    if Above(p, q) {
      LeafBlocks(t, p, q);
    }
  }

  /** Without user changes the merge is the package's tree and nothing conflicts. */
  lemma UntouchedConfigBecomesNew(base: Tree, new_: Tree, sidecars: bool)
    requires OnlyComparableLeaves(base)
    ensures MergeSucceeds(base, new_, base, sidecars)
    ensures forall q :: Merged(base, new_, base, sidecars, q) == View(new_, q)
    ensures forall p :: !IsConflict(base, new_, base, p)
  {
    hide View;
    forall p, k: Kind ensures !IsChange(View(base, p), View(base, p), k) {
    }
    forall p ensures !Edited(base, base, p) && !Deleted(base, base, p) {
    }
  }

  /** Without package changes nothing conflicts, and a file of the user survives with its content exactly when it
      does not stand where the old configuration had a device, fifo or socket; no file the user deleted comes back. */
  lemma UnchangedPackageKeepsLive(base: Tree, live: Tree, sidecars: bool, q: Path)
    requires OnlyComparableLeaves(base) && Valid(base) && Valid(live)
    ensures MergeSucceeds(base, base, live, sidecars) <==> forall p :: Edited(base, live, p) ==> ParentIsDir(base, p)
    ensures forall p :: !IsConflict(base, base, live, p)
    ensures Tracked(View(live, q)) ==>
              (HoldsContent(Merged(base, base, live, sidecars, q), View(live, q).leaf.content)
               <==> (HasLeaf(base, q) ==> Tracked(View(base, q))))
    ensures Tracked(Merged(base, base, live, sidecars, q)) ==> HasLeaf(live, q)
  {
    hide View;
    forall p ensures !Edited(base, base, p) && !Deleted(base, base, p) {
    }
    assert !View(live, q).Dangling? && !View(base, q).Dangling?;
    if BelowEdit(base, live, q) {
      var p :| Edited(base, live, p) && Above(p, q);
      LeafBlocks(live, p, q);
    }
  }

  predicate HoldsContent(node: Node, content: Content) {
    node.LeafNode? && node.leaf.content == content
  }
}
