/** File names and paths inside a tree.

    A path is the sequence of its components; the empty path is the root of the tree.  Names are compared
    the way the sorted directory listing of the source compares them: lexicographically.
  */
module Paths {
  type Name = string

  type Path = seq<Name>

  /** Lexicographic order on names. */
  predicate Less(a: Name, b: Name) {
    if b == "" then false
    else if a == "" then true
    else a[0] < b[0] || (a[0] == b[0] && Less(a[1..], b[1..]))
  }

  /** One name comes before another if it is a proper prefix or has the smaller character at the first difference. */
  lemma {:induction false} LessIsLexicographic(a: Name, b: Name)
    ensures Less(a, b) <==> exists k :: FirstDifference(a, b, k) && k < |b| && (k < |a| ==> a[k] < b[k])
  {
    if a == "" || b == "" || a[0] != b[0] {
      assert FirstDifference(a, b, 0);
      forall k {
        DifferenceNow(a, b, k);
      }
    } else {
      LessIsLexicographic(a[1..], b[1..]);
      LaterDifference(a, b);
      if k :| FirstDifference(a, b, k) && k < |b| && (k < |a| ==> a[k] < b[k]) {
        assert FirstDifference(a[1..], b[1..], k - 1);
      }
      if k :| FirstDifference(a[1..], b[1..], k) && k < |b[1..]| && (k < |a[1..]| ==> a[1..][k] < b[1..][k]) {
        assert FirstDifference(a, b, k + 1);
      }
    }
  }

  predicate FirstDifference(a: Name, b: Name, k: int) {
    0 <= k <= |a| && k <= |b| && a[..k] == b[..k] && (k < |a| && k < |b| ==> a[k] != b[k])
  }

  lemma DifferenceNow(a: Name, b: Name, k: int)
    ensures a == "" || b == "" || a[0] != b[0] ==> (FirstDifference(a, b, k) <==> k == 0)
  {
    if k > 0 && FirstDifference(a, b, k) {
      assert a[..k][0] == a[0] && b[..k][0] == b[0];
    }
  }

  lemma LaterDifference(a: Name, b: Name)
    requires a != "" && b != "" && a[0] == b[0]
    ensures !FirstDifference(a, b, 0)
    ensures forall k :: k >= 0 ==> (FirstDifference(a, b, k + 1) <==> FirstDifference(a[1..], b[1..], k))
  {
    forall k | k >= 0 ensures FirstDifference(a, b, k + 1) <==> FirstDifference(a[1..], b[1..], k) {
      if k < |a| && k < |b| {
        assert a[..k + 1] == [a[0]] + a[1..][..k] && b[..k + 1] == [b[0]] + b[1..][..k];
        assert a[..k + 1][1..] == a[1..][..k] && b[..k + 1][1..] == b[1..][..k];
      }
    }
  }

  lemma LessIsStrict(a: Name, b: Name)
    ensures Less(a, b) ==> a != b && !Less(b, a)
  {
    if a != "" && b != "" && a[0] == b[0] {
      LessIsStrict(a[1..], b[1..]);
    }
  }

  lemma LessIsTotal(a: Name, b: Name)
    ensures Less(a, b) || a == b || Less(b, a)
  {
    if a != "" && b != "" && a[0] == b[0] {
      LessIsTotal(a[1..], b[1..]);
      assert a == [a[0]] + a[1..] && b == [b[0]] + b[1..];
    }
  }

  lemma LessIsTransitive(a: Name, b: Name, c: Name)
    requires Less(a, b) && Less(b, c)
    ensures Less(a, c)
  {
    if a != "" && a[0] == b[0] == c[0] {
      LessIsTransitive(a[1..], b[1..], c[1..]);
    }
  }

  lemma LessExtension(a: Name, suffix: string)
    requires suffix != ""
    ensures Less(a, a + suffix)
  {
    if a != "" {
      LessExtension(a[1..], suffix);
      assert (a + suffix)[1..] == a[1..] + suffix;
    }
  }

  /** `names` lists distinct names in increasing order. */
  predicate Sorted(names: seq<Name>) {
    forall i, j :: 0 <= i < j < |names| ==> Less(names[i], names[j])
  }

  predicate IsLeast(m: Name, names: set<Name>) {
    m in names && forall n :: n in names ==> n == m || Less(m, n)
  }

  lemma LeastExists(names: set<Name>)
    requires names != {}
    ensures exists m :: IsLeast(m, names)
  {
    var x :| x in names;
    var rest := names - {x};
    if rest == {} {
      assert forall n :: n in names ==> n == x || n in rest;
      assert IsLeast(x, names);
    } else {
      LeastExists(rest);
      var m :| IsLeast(m, rest);
      LessIsTotal(m, x);
      var l := if Less(m, x) then m else x;
      forall n | n in names ensures n == l || Less(l, n) {
        if n in rest && l == x && n != m {
          LessIsTransitive(x, m, n);
        }
      }
      assert IsLeast(l, names);
    }
  }

  /** Lists the names in increasing order. */
  method SortNames(names: set<Name>) returns (r: seq<Name>)
    ensures Sorted(r)
    ensures forall n :: n in r <==> n in names
  {
    r := [];
    var rest := names;
    while rest != {}
      invariant rest <= names
      invariant Sorted(r)
      invariant forall n :: n in r <==> n in names - rest
      invariant forall a, b :: a in r && b in rest ==> Less(a, b)
    {
      LeastExists(rest);
      var m :| m in rest && IsLeast(m, rest);
      r := r + [m];
      rest := rest - {m};
    }
  }

  predicate Prefix(p: Path, q: Path) {
    |p| <= |q| && q[..|p|] == p
  }

  lemma PrefixOfTail(p: Path, q: Path)
    requires p != [] && q != [] && p[0] == q[0]
    ensures Prefix(p, q) <==> Prefix(p[1..], q[1..])
    ensures Prefix(p, q) ==> q[1..][|p[1..]|..] == q[|p|..]
  {
    assert p == [p[0]] + p[1..];
    if Prefix(p[1..], q[1..]) {
      assert q[..|p|] == [q[0]] + q[1..][..|p| - 1];
    }
    if Prefix(p, q) {
      assert q[1..][..|p| - 1] == q[..|p|][1..];
    }
  }

  /** `p` names an ancestor directory of `q`. */
  predicate Above(p: Path, q: Path) {
    |p| < |q| && q[..|p|] == p
  }

  function Parent(p: Path): Path
    requires p != []
  {
    p[..|p| - 1]
  }

  function Last(p: Path): Name
    requires p != []
  {
    p[|p| - 1]
  }

  lemma AboveIsTransitive(p: Path, q: Path, r: Path)
    requires Prefix(p, q) && Prefix(q, r)
    ensures Prefix(p, r)
  {
    assert r[..|p|] == r[..|q|][..|p|];
  }

  /** Ancestors of one path are comparable. */
  lemma AncestorsAreComparable(p: Path, q: Path, r: Path)
    requires Prefix(p, r) && Prefix(q, r)
    ensures Prefix(p, q) || Above(q, p)
  {
    if |p| <= |q| {
      assert q[..|p|] == r[..|q|][..|p|] == r[..|p|];
    } else {
      assert p[..|q|] == r[..|p|][..|q|] == r[..|q|];
    }
  }
}
