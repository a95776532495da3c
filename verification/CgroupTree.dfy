/** Paths in a cgroup hierarchy, as sequences of components below the mount point. */
module CgroupTree {

  type Path = seq<string>

  function Parent(p: Path): Path
    requires p != []
  {
    p[..|p| - 1]
  }

  predicate IsChild(p: Path, q: Path) {
    q != [] && Parent(q) == p
  }

  /** Every node but the topmost has its parent in the set. */
  ghost predicate Closed(nodes: set<Path>) {
    forall q | q in nodes && q != [] :: Parent(q) in nodes
  }

  predicate HasChild(nodes: set<Path>, p: Path) {
    exists q | q in nodes :: IsChild(p, q)
  }

  function Subtree(nodes: set<Path>, p: Path): set<Path> {
    set q | q in nodes && p <= q
  }

  lemma {:induction false} PrefixIn(nodes: set<Path>, q: Path, n: nat)
    requires Closed(nodes) && q in nodes && n <= |q|
    ensures q[..n] in nodes
    decreases |q|
  {
    if n < |q| {
      PrefixIn(nodes, Parent(q), n);
      assert Parent(q)[..n] == q[..n];
    } else {
      assert q[..n] == q;
    }
  }

  lemma BelowHasChild(nodes: set<Path>, p: Path, q: Path)
    requires Closed(nodes) && q in nodes && p <= q && |p| < |q|
    ensures HasChild(nodes, p) && q[..|p| + 1] in nodes && IsChild(p, q[..|p| + 1])
  {
    PrefixIn(nodes, q, |p| + 1);
    assert Parent(q[..|p| + 1]) == p;
  }

  lemma MissingSubtree(nodes: set<Path>, p: Path)
    requires Closed(nodes) && p !in nodes
    ensures Subtree(nodes, p) == {}
  {
    forall q | q in nodes
      ensures !(p <= q)
    {
      if |p| <= |q| {
        PrefixIn(nodes, q, |p|);
        assert q[..|p|] != p;
      }
    }
  }

  lemma ChildlessSubtree(nodes: set<Path>, p: Path)
    requires Closed(nodes) && p in nodes && !HasChild(nodes, p)
    ensures Subtree(nodes, p) == {p}
  {
    forall q | q in nodes && p <= q
      ensures q == p
    {
      if |p| < |q| {
        BelowHasChild(nodes, p, q);
      }
    }
  }
}
