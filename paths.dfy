/** Absolute devicetree node paths as lopper/tree.py builds and splits them
    (`os.path.dirname` / `os.path.basename` on "/"-separated strings). */
module Paths {
  import opened Common

  /** A path the tree can index: "/" or "/a/b" with no empty component and
      no trailing slash. */
  predicate WellFormed(p: string)
  {
    p == "/"
    || (|p| >= 2 && p[0] == '/' && p[|p| - 1] != '/'
        && forall i :: 0 <= i < |p| - 1 ==> !(p[i] == '/' && p[i + 1] == '/'))
  }

  /** Index of the last '/' in a well-formed path. */
  function LastSlash(p: string): (i: nat)
    requires |p| > 0 && p[0] == '/'
    ensures i < |p| && p[i] == '/'
    ensures forall k :: i < k < |p| ==> p[k] != '/'
    decreases |p|
  {
    if p[|p| - 1] == '/' then |p| - 1 else LastSlash(p[..|p| - 1])
  }

  /** `os.path.dirname`. */
  function Dirname(p: string): (r: string)
    requires WellFormed(p)
    ensures WellFormed(r)
    ensures p != "/" ==> |r| < |p|
  {
    var i := LastSlash(p);
    if i == 0 then "/" else p[..i]
  }

  /** `os.path.basename`. */
  function Basename(p: string): (r: string)
    requires WellFormed(p)
    ensures '/' !in r
  {
    p[LastSlash(p) + 1..]
  }

  /** The path of a child called `name` under `parent`. */
  function Join(parent: string, name: string): string
  {
    if parent == "/" then "/" + name else parent + "/" + name
  }

  /** Join as the parent's path (nothing for the root), "/" and the name. */
  lemma JoinParts(parent: string, name: string)
    ensures Join(parent, name) == (if parent == "/" then "" else parent) + ("/" + name)
    ensures Join(parent, name) == (if parent == "/" then "" else parent) + "/" + name
  {
  }

  /** A non-root path is its directory joined with its last component. */
  lemma DirnameBasename(p: string)
    requires WellFormed(p) && p != "/"
    ensures Join(Dirname(p), Basename(p)) == p
    ensures |Basename(p)| > 0
  {
    var i := LastSlash(p);
    if i == 0 {
      assert p == "/" + p[1..];
    } else {
      assert p == p[..i] + "/" + p[i + 1..];
    }
  }

  /** q lies in the subtree rooted at p (p itself included). */
  predicate Under(p: string, q: string)
  {
    p == "/" || q == p || StartsWith(q, p + "/")
  }

  /** A child of a node in the subtree is in the subtree. */
  lemma UnderChild(p: string, x: string, c: string)
    requires WellFormed(p) && WellFormed(c) && c != "/" && Dirname(c) == x && Under(p, x)
    ensures Under(p, c)
  {
    DirnameBasename(c);
    if p != "/" {
      assert x != "/";
      assert c == x + "/" + Basename(c);
      if x != p {
        assert c[..|p| + 1] == x[..|p| + 1];
      }
    }
  }

  /** The parent of a proper member of the subtree is in the subtree. */
  lemma UnderParent(p: string, q: string)
    requires WellFormed(p) && WellFormed(q) && Under(p, q) && q != p && q != "/"
    ensures Under(p, Dirname(q))
  {
    if p != "/" {
      var i := LastSlash(q);
      assert q[|p|] == '/';
      assert i >= |p|;
      if i == |p| {
        assert Dirname(q) == q[..|p|] == p;
      } else {
        assert Dirname(q) == q[..i];
        assert q[..i][..|p| + 1] == q[..|p| + 1];
      }
    }
  }

  /** A path lies in the subtree of its directory, and is not the
      directory itself. */
  lemma UnderDirname(p: string)
    requires WellFormed(p) && p != "/"
    ensures Under(Dirname(p), p) && Dirname(p) != p
  {
    DirnameBasename(p);
  }

  /** An ancestor of the directory of p is a proper ancestor of p. */
  lemma UnderDirnameOf(q: string, p: string)
    requires WellFormed(p) && p != "/" && Under(q, Dirname(p))
    ensures Under(q, p) && q != p
  {
    UnderDirname(p);
    if Dirname(p) != "/" && q != Dirname(p) {
      UnderTrans(q, Dirname(p), p);
    }
  }

  /** The subtree relation is transitive. */
  lemma UnderTrans(p: string, x: string, q: string)
    requires Under(p, x) && Under(x, q) && x != "/"
    ensures Under(p, q)
  {
    if p != "/" && q != x && x != p {
      assert q[..|p| + 1] == x[..|p| + 1];
    }
  }

  /** Two subtrees holding the same path are nested: the shorter root is
      an ancestor of the longer one. */
  lemma UnderOrdered(a: string, b: string, q: string)
    requires WellFormed(a) && WellFormed(b) && Under(a, q) && Under(b, q) && |a| <= |b|
    ensures Under(a, b)
  {
    if a != "/" && b != q && a != b {
      assert q[..|b| + 1] == b + "/";
      assert b == q[..|b|];
      assert a != q;
      assert q[..|a| + 1] == a + "/";
      assert a == q[..|a|];
      if |a| == |b| {
        assert false;
      }
      assert b[..|a| + 1] == q[..|a| + 1];
    }
  }

  /** Sibling subtrees are disjoint. */
  lemma SiblingsDisjoint(c1: string, c2: string, q: string)
    requires WellFormed(c1) && WellFormed(c2) && c1 != "/" && c2 != "/" && c1 != c2
    requires Dirname(c1) == Dirname(c2)
    ensures !(Under(c1, q) && Under(c2, q))
  {
    if Under(c1, q) && Under(c2, q) {
      if |c1| <= |c2| {
        UnderOrdered(c1, c2, q);
        UnderParent(c1, c2);
        assert false;
      } else {
        UnderOrdered(c2, c1, q);
        UnderParent(c2, c1);
        assert false;
      }
    }
  }
}
