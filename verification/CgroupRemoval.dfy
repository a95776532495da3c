/** `remove_dir` and the retry loop of `Controller::delete` against the kernel's rules for rmdir. */
module CgroupRemoval {
  import opened CgroupTree

  /** A node and all nodes below it may be removed: none is busy and each with children can be listed. */
  ghost predicate Removable(nodes: set<Path>, busy: set<Path>, unlistable: set<Path>, p: Path) {
    forall q | q in Subtree(nodes, p) :: q !in busy && (q in unlistable ==> !HasChild(nodes, q))
  }

  /** The same node by node: a node keeps the tree if it is busy, or has a child and cannot be listed. */
  lemma RemovableMeans(nodes: set<Path>, busy: set<Path>, unlistable: set<Path>, p: Path)
    ensures Removable(nodes, busy, unlistable, p) <==>
              forall q | q in nodes && p <= q ::
                q !in busy && !(q in unlistable && exists r | r in nodes :: r != [] && r[..|r| - 1] == q)
  {
    forall q | q in nodes && p <= q
      ensures q in Subtree(nodes, p) && (HasChild(nodes, q) <==> exists r | r in nodes :: r != [] && r[..|r| - 1] == q)
    {
      if r :| r in nodes && r != [] && r[..|r| - 1] == q {
        assert IsChild(q, r);
      }
    }
  }

  /** The pause, in milliseconds, after the n-th failed attempt. */
  function Delay(n: nat): nat {
    if n == 0 then 10 else 2 * Delay(n - 1)
  }

  function Delays(n: nat): seq<nat> {
    if n == 0 then [] else Delays(n - 1) + [Delay(n - 1)]
  }

  lemma FourDelays()
    ensures forall n | 0 <= n <= 4 :: Delays(n) == [10, 20, 40, 80][..n]
  {
    assert Delay(1) == 20 && Delay(2) == 40 && Delay(3) == 80;
    assert Delays(1) == [10] && Delays(2) == [10, 20] && Delays(3) == [10, 20, 40] && Delays(4) == [10, 20, 40, 80];
  }

  /** The nodes that were busy during each of the first n attempts. */
  function AlwaysBusy(nodes: set<Path>, busyAt: seq<set<Path>>, n: nat): set<Path>
    requires n <= |busyAt|
  {
    if n == 0 then nodes else AlwaysBusy(nodes, busyAt, n - 1) * busyAt[n - 1]
  }

  class Hierarchy {
    var nodes: set<Path>
    /** The nodes whose rmdir is refused as busy; the mount point is one of them. */
    var busy: set<Path>
    /** The nodes whose listing fails, before the first entry or at a later one. */
    const unlistable: set<Path>

    constructor (nodes: set<Path>, busy: set<Path>, unlistable: set<Path>)
      ensures this.nodes == nodes && this.busy == busy && this.unlistable == unlistable
    {
      this.nodes, this.busy, this.unlistable := nodes, busy, unlistable;
    }

    /** The rmdir system call on a cgroup directory. */
    method Rmdir(p: Path) returns (ok: bool)
      modifies this`nodes
      ensures ok <==> p in old(nodes) && p !in busy && !HasChild(old(nodes), p)
      ensures nodes == if ok then old(nodes) - {p} else old(nodes)
    {
      ok := p in nodes && p !in busy && !HasChild(nodes, p);
      if ok {
        nodes := nodes - {p};
      }
    }

    method RemoveDir(p: Path) returns (ok: bool)
      requires Closed(nodes)
      modifies this`nodes
      ensures Closed(nodes) && nodes <= old(nodes) && old(nodes) - nodes <= Subtree(old(nodes), p)
      ensures busy * old(nodes) <= nodes
      ensures ok <==> Removable(old(nodes), busy, unlistable, p)
      ensures if ok then nodes == old(nodes) - Subtree(old(nodes), p) else p in nodes
      decreases Subtree(nodes, p)
    {
      ghost var was := nodes;
      // The fast path first.
      ok := Rmdir(p);
      if ok {
        ChildlessSubtree(was, p);
        return;
      }

      if p in nodes {
        assert p in Subtree(was, p);
        var entries := set q | q in nodes && IsChild(p, q);
        ghost var done: set<Path> := {};
        while entries != {}
          invariant done !! entries && done + entries == set q | q in was && IsChild(p, q)
          invariant nodes == Without(was, p, done) && Closed(nodes)
          invariant forall q | q in was && q !in nodes :: q !in busy && (q in unlistable ==> !HasChild(was, q))
          decreases entries
        {
          var failsHere: bool := *;
          if p in unlistable && failsHere {
            return false;
          }
          var path :| path in entries;
          assert p !in Subtree(nodes, path) && Subtree(nodes, path) < Subtree(was, p) by {
            assert p <= path;
          }
          SameChildren(was, p, done, path);
          WithoutStep(was, p, done, path);
          ghost var before := nodes;
          ok := RemoveDir(path);
          if !ok {
            ghost var q :| q in Subtree(before, path) && (q in busy || (q in unlistable && HasChild(before, q)));
            assert q in Subtree(was, p);
            return;
          }
          entries, done := entries - {path}, done + {path};
        }
        if p in unlistable {
          return false;
        }
        AllBelow(was, p, done);
        ok := Rmdir(p);
        return;
      }
      MissingSubtree(was, p);
      ok := true;
    }

    /** One round of the retry loop, seen from the nodes `was` there before the first round. */
    method Attempt(p: Path, busyNow: set<Path>, ghost was: set<Path>) returns (ok: bool)
      requires Shrunk(was, nodes, p)
      modifies this
      ensures Shrunk(was, nodes, p) && busyNow * old(nodes) <= nodes <= old(nodes)
      ensures Removable(was, busyNow, unlistable, p) ==> ok
      ensures if ok then nodes == was - Subtree(was, p) else p in nodes
    {
      busy := busyNow;
      assert Subtree(nodes, p) <= Subtree(was, p);
      RemovableShrinks(was, nodes, busy, unlistable, p);
      ok := RemoveDir(p);
    }

    /** `delete`: `busyAt[i]` is the set of busy nodes during the i-th attempt. */
    method Delete(p: Path, busyAt: seq<set<Path>>) returns (ok: bool, attempts: nat, slept: seq<nat>)
      requires Closed(nodes) && |busyAt| == 5
      modifies this
      ensures Shrunk(old(nodes), nodes, p)
      ensures if ok then nodes == old(nodes) - Subtree(old(nodes), p) else attempts == 5 && p in nodes
      ensures attempts <= 5 && (attempts == 0 <==> p !in old(nodes))
      ensures slept == [10, 20, 40, 80][..if attempts == 0 then 0 else attempts - 1]
      // The first attempt that meets no busy node is the last one needed.
      ensures forall i | 0 <= i < 5 && Removable(old(nodes), busyAt[i], unlistable, p) :: ok && attempts <= i + 1
      // A node that is busy at every attempt stays.
      ensures AlwaysBusy(old(nodes), busyAt, attempts) <= nodes
    {
      attempts, slept := 0, [];
      FourDelays();
      ghost var was := nodes;
      if p !in nodes {
        MissingSubtree(nodes, p);
        return true, attempts, slept;
      }
      var delay := 10;
      for i := 0 to 4
        invariant attempts == i && delay == Delay(i) && slept == Delays(i)
        invariant Shrunk(was, nodes, p) && p in nodes
        invariant forall j | 0 <= j < i :: !Removable(was, busyAt[j], unlistable, p)
        invariant AlwaysBusy(was, busyAt, i) <= nodes
      {
        ok := Attempt(p, busyAt[i], was);
        attempts := attempts + 1;
        if ok {
          return;
        }
        slept := slept + [delay];
        delay := delay * 2;
      }
      ok := Attempt(p, busyAt[4], was);
      attempts := attempts + 1;
    }
  }

  /** `nodes` is what some removals under p have left of `was`. */
  ghost predicate Shrunk(was: set<Path>, nodes: set<Path>, p: Path) {
    Closed(nodes) && nodes <= was && was - nodes <= Subtree(was, p)
  }

  /** What is left of `nodes` once the children `done` of p are removed with all below them. */
  ghost function Without(nodes: set<Path>, p: Path, done: set<Path>): set<Path> {
    set q | q in nodes && !(p <= q && |q| > |p| && q[..|p| + 1] in done)
  }

  lemma WithoutStep(nodes: set<Path>, p: Path, done: set<Path>, c: Path)
    requires IsChild(p, c)
    ensures var w := Without(nodes, p, done); w - Subtree(w, c) == Without(nodes, p, done + {c})
  {
    forall q | q in nodes
      ensures c <= q <==> p <= q && |q| > |p| && q[..|p| + 1] == c
    {
    }
  }

  /** Removing one child of p leaves the nodes below another child as they are. */
  lemma SameChildren(nodes: set<Path>, p: Path, done: set<Path>, c: Path)
    requires c !in done && IsChild(p, c)
    ensures forall q | q in nodes && c <= q :: q in Without(nodes, p, done)
    ensures forall q | q in nodes && c <= q && HasChild(nodes, q) :: HasChild(Without(nodes, p, done), q)
  {
    var w := Without(nodes, p, done);
    forall q | q in nodes && c <= q
      ensures q in w
    {
      assert q[..|p| + 1] == c;
    }
    forall q | q in nodes && c <= q && HasChild(nodes, q)
      ensures HasChild(w, q)
    {
      var r :| r in nodes && IsChild(q, r);
      assert c <= r;
      assert r in w;
    }
  }

  lemma AllBelow(nodes: set<Path>, p: Path, done: set<Path>)
    requires Closed(nodes) && p in nodes && done == set q | q in nodes && IsChild(p, q)
    ensures Without(nodes, p, done) == nodes - Subtree(nodes, p) + {p}
    ensures !HasChild(Without(nodes, p, done), p)
  {
    forall q | q in nodes && p <= q
      ensures q in Without(nodes, p, done) <==> q == p
    {
      if |q| > |p| {
        BelowHasChild(nodes, p, q);
      }
    }
  }

  lemma RemovableShrinks(was: set<Path>, nodes: set<Path>, busy: set<Path>, unlistable: set<Path>, p: Path)
    requires nodes <= was
    ensures Removable(was, busy, unlistable, p) ==> Removable(nodes, busy, unlistable, p)
  {
  }
}
