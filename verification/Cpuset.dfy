/**
 * The cpuset files of a hierarchy: on v1, inheriting a value from the nearest ancestor that has one,
 * and, on v1 and v2, enabling CPUs from the root down to a managed cgroup.
 */
module Cpuset {
  import opened Wrappers
  import opened CgroupTree

  type Cpus = set<nat>

  /** One cpuset file (`cpuset.cpus` or `cpuset.mems`) in every directory that has it. */
  type Files = map<Path, Cpus>

  datatype CopyError = ReadFailed(path: Path) | WriteFailed(path: Path)

  ghost predicate Covers(files: Files, p: Path, v: Cpus) {
    forall q | q in files && IsChild(p, q) :: files[q] <= v
  }

  /** The rule of the kernel on v1: a set lies within the parent's and covers those of the children. */
  ghost predicate Accepts(files: Files, p: Path, v: Cpus) {
    p in files && (p != [] && Parent(p) in files ==> v <= files[Parent(p)]) && Covers(files, p, v)
  }

  ghost predicate Nested(files: Files) {
    forall p, q {:trigger IsChild(p, q)} | IsChild(p, q) && p in files && q in files :: files[q] <= files[p]
  }

  // The upward walk.

  /** What the walk from p finds: the first value that is not empty, and the empty nodes before it. */
  function Walk(files: Files, p: Path): Result<(Cpus, seq<Path>), CopyError> {
    if p !in files then Err(ReadFailed(p))
    else if files[p] != {} then Ok((files[p], []))
    else if p == [] then Ok(({}, [p]))
    else Prepend([p], Walk(files, Parent(p)))
  }

  function Prepend(v: seq<Path>, r: Result<(Cpus, seq<Path>), CopyError>): Result<(Cpus, seq<Path>), CopyError> {
    match r
    case Err(e) => Err(e)
    case Ok((value, nodes)) => Ok((value, v + nodes))
  }

  lemma PrependOne(v: seq<Path>, p: Path, r: Result<(Cpus, seq<Path>), CopyError>)
    ensures Prepend([], r) == r
    ensures Prepend(v + [p], r) == Prepend(v, Prepend([p], r))
  {
    if r.Ok? {
      assert [] + r.value.1 == r.value.1;
      assert v + [p] + r.value.1 == v + ([p] + r.value.1);
    }
  }

  ghost predicate EmptyBelow(files: Files, p: Path, k: nat) {
    k <= |p| && forall j | k < j <= |p| :: p[..j] in files && files[p[..j]] == {}
  }

  /** The node at depth k is the nearest ancestor of p (or p itself) that has a value. */
  ghost predicate Source(files: Files, p: Path, k: nat) {
    EmptyBelow(files, p, k) && p[..k] in files && files[p[..k]] != {}
  }

  /** The walk from p meets a directory without the file before it meets a value. */
  ghost predicate Unreadable(files: Files, p: Path, k: nat) {
    EmptyBelow(files, p, k) && p[..k] !in files
  }

  lemma {:induction false} WalkMeans(files: Files, p: Path)
    ensures match Walk(files, p)
            case Err(e) => exists k: nat :: Unreadable(files, p, k) && e == ReadFailed(p[..k])
            case Ok((value, nodes)) =>
              && |nodes| <= |p| + 1
              && (forall i | 0 <= i < |nodes| :: nodes[i] == p[..|p| - i])
              && (value != {} ==>
                    |nodes| <= |p| && Source(files, p, |p| - |nodes|) && value == files[p[..|p| - |nodes|]])
              && (value == {} ==> EmptyBelow(files, p, 0) && [] in files && files[[]] == {})
  {
    assert p[..|p|] == p;
    if p !in files {
      assert Unreadable(files, p, |p|);
    } else if files[p] != {} {
      assert Source(files, p, |p|);
    } else if p == [] {
      assert p[..0] == [];
    } else {
      var up := Parent(p);
      WalkMeans(files, up);
      assert forall j | 0 <= j <= |up| :: up[..j] == p[..j];
      match Walk(files, up) {
        case Err(e) =>
          var k: nat :| Unreadable(files, up, k) && e == ReadFailed(up[..k]);
          assert Unreadable(files, p, k);
        case Ok((value, nodes)) =>
          if value != {} {
            assert Source(files, p, |up| - |nodes|);
          }
      }
    }
  }

  /** The walk decides between the three cases, and the source it finds is the only one. */
  lemma WalkDecides(files: Files, p: Path)
    ensures Walk(files, p).Err? <==> exists k: nat :: Unreadable(files, p, k)
    ensures var r := Walk(files, p);
            if r.Ok? && r.value.0 != {} then
              && |r.value.1| <= |p| && Source(files, p, |p| - |r.value.1|) && r.value.0 == files[p[..|p| - |r.value.1|]]
              && (forall k: nat | Source(files, p, k) :: k == |p| - |r.value.1|)
              && (forall i | 0 <= i < |r.value.1| :: r.value.1[i] == p[..|p| - i])
            else forall k: nat :: !Source(files, p, k)
  {
    WalkMeans(files, p);
    assert p[..0] == [];
  }

  /** The files once v was written to the nodes from depth k (exclusive) to depth n on the way to p. */
  function Filled(files: Files, p: Path, k: nat, n: nat, v: Cpus): Files
    requires n <= |p|
  {
    if n <= k then files else Filled(files, p, k, n - 1, v)[p[..n] := v]
  }

  /** Exactly the nodes below the source on the way to p have its value; all others keep their own. */
  ghost predicate Inherited(was: Files, files: Files, p: Path, k: nat) {
    && Source(was, p, k) && files.Keys == was.Keys
    && forall q | q in was :: files[q] == if k < |q| && q <= p then was[p[..k]] else was[q]
  }

  lemma PrefixChild(p: Path, n: nat, q: Path)
    requires n <= |p| && IsChild(p[..n], q)
    ensures |q| == n + 1 && (q <= p <==> n < |p| && q == p[..n + 1])
  {
    if q <= p {
      assert q == p[..|q|];
    }
  }

  /** Exactly the nodes between p and the source get the value; every other node keeps its own. */
  lemma {:induction false} FilledMeans(was: Files, p: Path, k: nat, n: nat, v: Cpus)
    requires Source(was, p, k) && k <= n <= |p|
    ensures var files := Filled(was, p, k, n, v);
            && files.Keys == was.Keys
            && (forall q | q in was :: files[q] == if k < |q| <= n && q <= p then v else was[q])
  {
    if n > k {
      FilledMeans(was, p, k, n - 1, v);
      FilledWereEmpty(was, p, k, p[..n]);
      forall q
        ensures k < |q| <= n && q <= p <==> (k < |q| <= n - 1 && q <= p) || q == p[..n]
      {
        assert q <= p ==> q == p[..|q|];
      }
    }
  }

  lemma FilledIsInherited(was: Files, p: Path, k: nat)
    requires Source(was, p, k)
    ensures Inherited(was, Filled(was, p, k, |p|, was[p[..k]]), p, k)
  {
    FilledMeans(was, p, k, |p|, was[p[..k]]);
  }

  lemma NothingToFill(was: Files, p: Path)
    requires Source(was, p, |p|)
    ensures Inherited(was, was, p, |p|)
  {
  }

  /** The nodes that get the value were empty. */
  lemma FilledWereEmpty(was: Files, p: Path, k: nat, q: Path)
    requires Source(was, p, k) && k < |q| && q <= p
    ensures q in was && was[q] == {}
  {
    assert q == p[..|q|];
  }

  lemma FillKeeps(was: Files, p: Path, k: nat, n: nat, v: Cpus)
    requires Nested(was) && Source(was, p, k) && v == was[p[..k]] && k <= n < |p|
    ensures Accepts(Filled(was, p, k, n, v), p[..n + 1], v)
  {
    var files := Filled(was, p, k, n, v);
    FilledMeans(was, p, k, n, v);
    var node := p[..n + 1];
    assert Parent(node) == p[..n];
    FilledWereEmpty(was, p, k, node);
    forall q | q in files && IsChild(node, q)
      ensures files[q] <= v
    {
      PrefixChild(p, n + 1, q);
      assert was[q] <= was[node];
    }
  }

  lemma WriteKeepsNested(files: Files, p: Path, v: Cpus)
    requires Nested(files) && Accepts(files, p, v)
    ensures Nested(files[p := v])
  {
  }

  // Enabling CPUs top-down.

  /** On v1 the hierarchy's root has CPUs, and no directory below it exists without its parent. */
  ghost predicate Rooted(files: Files, root: Path) {
    && root in files && files[root] != {}
    && forall q {:trigger HasParent(files, q)} | q in files && root < q :: HasParent(files, q)
  }

  predicate HasParent(files: Files, q: Path) {
    q != [] && Parent(q) in files
  }

  /** q lies strictly below the root on the way to `path`, at depth n or above. */
  predicate OnWay(root: Path, path: Path, n: nat, q: Path) {
    |root| < |q| <= n && q <= path
  }

  /** The files once v was written to the nodes below the root on the way to `path`, down to depth n. */
  function Given(was: Files, root: Path, path: Path, n: nat, v: Cpus): Files
    requires n <= |path|
  {
    if n <= |root| then was else Given(was, root, path, n - 1, v)[path[..n] := v]
  }

  /** Exactly the nodes on the way have the new value; every other node keeps its own. */
  lemma {:induction false} GivenMeans(was: Files, root: Path, path: Path, n: nat, v: Cpus)
    requires n <= |path|
    ensures var files := Given(was, root, path, n, v);
            && (forall q :: q in files <==> q in was || OnWay(root, path, n, q))
            && (forall q | q in files :: files[q] == if OnWay(root, path, n, q) then v else was[q])
  {
    if n > |root| {
      GivenMeans(was, root, path, n - 1, v);
      forall q
        ensures OnWay(root, path, n, q) <==> OnWay(root, path, n - 1, q) || q == path[..n]
      {
        assert q <= path ==> q == path[..|q|];
      }
    }
  }

  /** No child of a node on the way down to depth n holds CPUs that are not in v. */
  ghost predicate ChildrenWithin(files: Files, root: Path, path: Path, n: nat, v: Cpus)
    requires n <= |path|
  {
    n <= |root| || (ChildrenWithin(files, root, path, n - 1, v) && Covers(files, path[..n], v))
  }

  lemma OnWayStep(root: Path, path: Path, n: nat)
    requires root <= path && |root| <= n < |path|
    ensures forall q :: OnWay(root, path, n + 1, q) <==> OnWay(root, path, n, q) || q == path[..n + 1]
    ensures Parent(path[..n + 1]) == path[..n] && path[..|root|] == root
    ensures path[..n] == root || OnWay(root, path, n, path[..n])
  {
    forall q
      ensures OnWay(root, path, n + 1, q) <==> OnWay(root, path, n, q) || q == path[..n + 1]
    {
      assert q <= path ==> q == path[..|q|];
    }
    assert path[..n][..|root|] == path[..|root|];
  }

  /** The state of the node next on the way, and of its children, before it is written. */
  lemma NextOnWay(was: Files, files: Files, root: Path, path: Path, n: nat, v: Cpus)
    requires root <= path && |root| <= n < |path|
    requires Rooted(was, root) && files == Given(was, root, path, n, v)
    ensures Parent(path[..n + 1]) == path[..n]
    ensures path[..n] in files && files[path[..n]] == if n > |root| then v else was[root]
    ensures forall q | IsChild(path[..n + 1], q) :: q != path[..n + 1] && (q in files <==> q in was)
    ensures forall q | IsChild(path[..n + 1], q) && q in files :: files[q] == was[q] && path[..n + 1] in files
  {
    OnWayStep(root, path, n);
    GivenMeans(was, root, path, n, v);
    forall q | IsChild(path[..n + 1], q)
      ensures |q| == n + 2
      ensures q in was ==> HasParent(was, q)
    {
      assert q[..|root|] == path[..n + 1][..|root|] == root;
    }
  }

  /** The next node is there exactly if it was there before the walk. */
  lemma NextIsNew(was: Files, root: Path, path: Path, n: nat, v: Cpus)
    requires root <= path && |root| <= n < |path|
    ensures path[..n + 1] in Given(was, root, path, n, v) <==> path[..n + 1] in was
  {
    GivenMeans(was, root, path, n, v);
  }

  lemma {:induction false} NestedBelow(files: Files, root: Path, q: Path, n: nat)
    requires Nested(files) && Rooted(files, root) && q in files && root <= q && |root| < n <= |q|
    ensures q[..n] in files && files[q] <= files[q[..n]]
    decreases |q|
  {
    if n == |q| {
      assert q[..n] == q;
    } else {
      var up := Parent(q);
      assert up[..|root|] == q[..|root|] == root;
      assert HasParent(files, q) && IsChild(up, q);
      NestedBelow(files, root, up, n);
      assert up[..n] == q[..n];
    }
  }

  lemma {:induction false} ChildrenWithinUp(files: Files, root: Path, path: Path, m: nat, n: nat, v: Cpus)
    requires m <= n <= |path| && ChildrenWithin(files, root, path, n, v)
    ensures ChildrenWithin(files, root, path, m, v)
  {
    if m < n && |root| < n {
      ChildrenWithinUp(files, root, path, m, n - 1, v);
    }
  }

  /** The kernel takes the write on the next node, whatever value it had, just when the sets fit. */
  lemma AcceptsNext(was: Files, files: Files, root: Path, path: Path, n: nat, v: Cpus, own: Cpus)
    requires root <= path && |root| <= n < |path|
    requires Rooted(was, root) && files == Given(was, root, path, n, v)
    requires ChildrenWithin(was, root, path, n, v) && (n > |root| ==> v <= was[root])
    ensures Accepts(files[path[..n + 1] := own], path[..n + 1], v) <==>
              v <= was[root] && ChildrenWithin(was, root, path, n + 1, v)
  {
    NextOnWay(was, files, root, path, n, v);
  }

  /** It is enough that the new set lies within the root's and covers the topmost node's. */
  lemma {:induction false} CoveringTheTopmostSuffices(files: Files, root: Path, path: Path, n: nat, v: Cpus)
    requires Nested(files) && Rooted(files, root) && root < path && n <= |path|
    requires path[..|root| + 1] in files ==> files[path[..|root| + 1]] <= v
    ensures ChildrenWithin(files, root, path, n, v)
  {
    if n > |root| {
      CoveringTheTopmostSuffices(files, root, path, n - 1, v);
      forall q | q in files && IsChild(path[..n], q)
        ensures files[q] <= v
      {
        assert q[..n] == path[..n] && q[..|root|] == q[..n][..|root|] == root;
        assert q[..|root| + 1] == q[..n][..|root| + 1] == path[..|root| + 1];
        NestedBelow(files, root, q, |root| + 1);
      }
    }
  }

  lemma {:induction false} ChildrenWithinMeans(files: Files, root: Path, path: Path, n: nat, v: Cpus)
    requires n <= |path|
    ensures ChildrenWithin(files, root, path, n, v) <==>
              forall p, q {:trigger IsChild(p, q)} |
                IsChild(p, q) && |root| < |p| <= n && p <= path && q in files :: files[q] <= v
  {
    if n > |root| {
      ChildrenWithinMeans(files, root, path, n - 1, v);
      forall p | p <= path && |p| == n
        ensures p == path[..n]
      {
      }
    }
  }

  /** Every node on the way down to depth n exists or can be made. */
  predicate Makeable(files: Files, forbidden: set<Path>, root: Path, path: Path, n: nat)
    requires n <= |path|
  {
    n <= |root|
    || (Makeable(files, forbidden, root, path, n - 1) && (path[..n] in files || path[..n] !in forbidden))
  }

  lemma {:induction false} MakeableMeans(files: Files, forbidden: set<Path>, root: Path, path: Path, n: nat)
    requires n <= |path|
    ensures Makeable(files, forbidden, root, path, n) <==>
              forall l | |root| < l <= n :: path[..l] in files || path[..l] !in forbidden
  {
    if n > |root| {
      MakeableMeans(files, forbidden, root, path, n - 1);
    }
  }

  lemma {:induction false} MakeableUp(files: Files, forbidden: set<Path>, root: Path, path: Path, m: nat, n: nat)
    requires m <= n <= |path| && Makeable(files, forbidden, root, path, n)
    ensures Makeable(files, forbidden, root, path, m)
  {
    if m < n && |root| < n {
      MakeableUp(files, forbidden, root, path, m, n - 1);
    }
  }

  /** The kernel takes the new set on the node p of the way: on v1 by its rule, on v2 always. */
  ghost predicate FitsAt(files: Files, v2: bool, root: Path, p: Path, v: Cpus)
    requires v2 || root in files
  {
    v2 || (v <= files[root] && Covers(files, p, v))
  }

  ghost predicate Fits(files: Files, v2: bool, root: Path, path: Path, v: Cpus)
    requires v2 || root in files
  {
    v2 || (v <= files[root] && ChildrenWithin(files, root, path, |path|, v))
  }

  /** What stops the walk at depth n keeps the whole way from being enabled. */
  lemma NoFurther(files: Files, forbidden: set<Path>, v2: bool, root: Path, path: Path, n: nat, v: Cpus)
    requires |root| < n <= |path| && (v2 || root in files)
    requires !(FitsAt(files, v2, root, path[..n], v) && (path[..n] in files || path[..n] !in forbidden))
    ensures !(Fits(files, v2, root, path, v) && Makeable(files, forbidden, root, path, |path|))
  {
    if !v2 && ChildrenWithin(files, root, path, |path|, v) {
      ChildrenWithinUp(files, root, path, n, |path|, v);
    }
    if Makeable(files, forbidden, root, path, |path|) {
      MakeableUp(files, forbidden, root, path, n, |path|);
    }
  }

  /** The value of a node once `Cgroup::new` opened it: its own, or on v1 the parent's in place of none. */
  function Opened(files: Files, p: Path, v2: bool): Cpus
    requires p != []
  {
    if p in files && files[p] != {} then files[p]
    else if v2 || Parent(p) !in files then {}
    else files[Parent(p)]
  }

  function OpenedAt(files: Files, p: Path, v2: bool): Files
    requires p != []
  {
    files[p := Opened(files, p, v2)]
  }

  /**
   * What a refusal leaves after the setter was called on m nodes: the nodes before hold the new set,
   * and either the next one could not be made, or the last one keeps the value it was opened with.
   */
  ghost predicate StoppedAt(
    was: Files, files: Files, forbidden: set<Path>, v2: bool, root: Path, path: Path, m: nat, v: Cpus)
    requires v2 || root in was
  {
    var n := |root| + m;
    || (n < |path| && path[..n + 1] !in was && path[..n + 1] in forbidden && files == Given(was, root, path, n, v))
    || (0 < m && n <= |path| && !FitsAt(was, v2, root, path[..n], v)
        && files == OpenedAt(Given(was, root, path, n - 1, v), path[..n], v2))
  }

  lemma StopsHere(
    was: Files, files: Files, forbidden: set<Path>, v2: bool, root: Path, path: Path,
    n: nat, called: bool, m: nat, v: Cpus)
    requires (v2 || root in was) && |root| < n <= |path| && |root| + m == (if called then n else n - 1)
    requires called <==> path[..n] in was || path[..n] !in forbidden
    requires called ==> !FitsAt(was, v2, root, path[..n], v)
    requires var before := Given(was, root, path, n - 1, v);
             files == if called then OpenedAt(before, path[..n], v2) else before
    ensures StoppedAt(was, files, forbidden, v2, root, path, m, v)
  {
  }

  /** Node by node, the files after k nodes of the way were set and the next one was opened. */
  lemma OpenedInValues(was: Files, root: Path, path: Path, k: nat, v: Cpus, v2: bool)
    requires root <= path && |root| <= k < |path| && (v2 || Rooted(was, root))
    ensures var last := path[..k + 1];
            var files := OpenedAt(Given(was, root, path, k, v), last, v2);
            && (forall q :: q in files <==> q in was || q == last || (|root| < |q| <= k && q <= path))
            && (forall q | q in files && q != last :: files[q] == if |root| < |q| <= k && q <= path then v else was[q])
            && files[last] == if last in was && was[last] != {} then was[last]
                              else if v2 then {} else if k > |root| then v else was[root]
  {
    GivenMeans(was, root, path, k, v);
    if !v2 {
      NextOnWay(was, Given(was, root, path, k, v), root, path, k, v);
    }
  }

  class Tree {
    var files: Files
    const v2: bool
    /** The directories that cannot be made. */
    const forbidden: set<Path>

    constructor (files: Files, v2: bool, forbidden: set<Path>)
      ensures this.files == files && this.v2 == v2 && this.forbidden == forbidden
    {
      this.files, this.v2, this.forbidden := files, v2, forbidden;
    }

    /** On v1 every child's set lies within its parent's; on v2 the kernel cuts down the effective sets only. */
    ghost predicate Valid()
      reads this
    {
      v2 || Nested(files)
    }

    /** Writing one file, as the kernel takes it: on v2 whatever the sets of the parent and the children. */
    method Write(p: Path, v: Cpus) returns (ok: bool)
      requires Valid()
      modifies this
      ensures ok <==> if v2 then p in old(files) else Accepts(old(files), p, v)
      ensures files == if ok then old(files)[p := v] else old(files)
      ensures Valid()
    {
      ok := p in files && (v2 || ((p != [] && Parent(p) in files ==> v <= files[Parent(p)])
                                  && forall q | q in files && IsChild(p, q) :: files[q] <= v));
      if ok {
        if !v2 {
          WriteKeepsNested(files, p, v);
        }
        files := files[p := v];
      }
    }

    method FindNonEmptyParent(from: Path) returns (r: Result<(Cpus, seq<Path>), CopyError>)
      ensures r == Walk(files, from)
    {
      var current, v := from, [];
      PrependOne(v, from, Walk(files, from));
      while true
        invariant Walk(files, from) == Prepend(v, Walk(files, current))
        decreases |current|
      {
        if current !in files {
          return Err(ReadFailed(current));
        }
        if files[current] != {} {
          assert v + [] == v;
          return Ok((files[current], v));
        }
        if current != [] {
          PrependOne(v, current, Walk(files, Parent(current)));
        }
        v := v + [current];
        if current == [] {
          return Ok(({}, v));
        }
        current := Parent(current);
      }
    }

    /** Called from `post_create`, which returns before it on v2. */
    method CopyFromParent(current: Path) returns (r: Result<(), CopyError>)
      requires !v2 && Nested(files)
      modifies this
      ensures Nested(files)
      ensures forall k: nat | Source(old(files), current, k) :: r.Ok? && Inherited(old(files), files, current, k)
      ensures (forall k: nat :: !Source(old(files), current, k)) ==> files == old(files)
      ensures r.Err? <==> exists k: nat :: Unreadable(old(files), current, k)
    {
      ghost var was := files;
      WalkDecides(was, current);
      var found := FindNonEmptyParent(current);
      if found.Err? {
        return Err(found.error);
      }
      var (value, parents) := found.value;
      if value == {} || parents == [] {
        if value != {} {
          NothingToFill(was, current);
        }
        return Ok(());
      }
      r := FillParents(current, parents, value);
    }

    /** The loop over the empty nodes, the topmost first. */
    method FillParents(current: Path, parents: seq<Path>, value: Cpus) returns (r: Result<(), CopyError>)
      requires !v2 && Nested(files) && |parents| <= |current| && value != {}
      requires var k := |current| - |parents|; Source(files, current, k) && value == files[current[..k]]
      requires forall i | 0 <= i < |parents| :: parents[i] == current[..|current| - i]
      modifies this
      ensures Nested(files) && r.Ok? && Inherited(old(files), files, current, |current| - |parents|)
    {
      ghost var was, k := files, |current| - |parents|;
      assert files == Filled(was, current, k, k, value);
      for i := |parents| downto 0
        invariant files == Filled(was, current, k, |current| - i, value) && Nested(files)
      {
        FillKeeps(was, current, k, |current| - i - 1, value);
        var pb := parents[i];
        var ok := Write(pb, value);
        if !ok {
          return Err(WriteFailed(pb));
        }
      }
      FilledIsInherited(was, current, k);
      r := Ok(());
    }

    /** `Cgroup::new` on one path: create the directory, then inherit a value on v1. */
    method NewCgroup(p: Path) returns (ok: bool)
      requires Valid() && p != []
      requires v2 || (Parent(p) in files && files[Parent(p)] != {})
      requires v2 || forall q | q in files && IsChild(p, q) :: p in files
      modifies this
      ensures Valid()
      ensures ok <==> p in old(files) || p !in forbidden
      ensures files == if ok then OpenedAt(old(files), p, v2) else old(files)
    {
      ok := p in files || p !in forbidden;
      if !ok {
        return;
      }
      if p !in files {
        files := files[p := {}];
      }
      if !v2 {
        ghost var was := files;
        assert p[..|p|] == p && p[..|p| - 1] == Parent(p);
        if was[p] != {} {
          assert Source(was, p, |p|);
        } else {
          assert Source(was, p, |p| - 1);
          assert forall q | q in was :: |p| - 1 < |q| && q <= p <==> q == p;
        }
        var copied := CopyFromParent(p);
        assert files == was[p := if was[p] != {} then was[p] else was[Parent(p)]];
      }
    }

    /**
     * The round of the walk for the node at depth n: open (or create) it, then set its CPUs, where
     * `called` tells that it came to the second.
     */
    method EnableOn(p: Path, cpus: Cpus, ghost was: Files, ghost root: Path, ghost path: Path, ghost n: nat)
      returns (ok: bool, called: bool)
      requires Valid() && (v2 || Rooted(was, root)) && root <= path && |root| < n <= |path| && p == path[..n]
      requires files == Given(was, root, path, n - 1, cpus) && cpus != {}
      requires v2 || (ChildrenWithin(was, root, path, n - 1, cpus) && (n - 1 > |root| ==> cpus <= was[root]))
      modifies this
      ensures Valid()
      ensures called <==> p in was || p !in forbidden
      ensures ok <==> called && FitsAt(was, v2, root, p, cpus)
      ensures files == if ok then Given(was, root, path, n, cpus)
                       else if called then OpenedAt(old(files), p, v2)
                       else old(files)
    {
      ghost var before := files;
      ghost var k := n - 1;
      assert k + 1 == n;
      if !v2 {
        NextOnWay(was, before, root, path, k, cpus);
        OnWayStep(root, path, k);
      }
      NextIsNew(was, root, path, k, cpus);
      called := NewCgroup(p);
      if !called {
        return false, called;
      }
      if !v2 {
        AcceptsNext(was, before, root, path, k, cpus, files[p]);
      }
      ok := Write(p, cpus);
    }

    /** The ancestors of `path`, itself first, up to but without the root. */
    method Ancestors(root: Path, path: Path) returns (stack: seq<Path>)
      requires root <= path
      ensures |stack| == |path| - |root| && forall i | 0 <= i < |stack| :: stack[i] == path[..|path| - i]
    {
      stack := [];
      var parent := path;
      while parent != root
        invariant root <= parent && |stack| == |path| - |parent| && parent == path[..|parent|]
        invariant forall i | 0 <= i < |stack| :: stack[i] == path[..|path| - i]
        decreases |parent|
      {
        stack := stack + [parent];
        parent := Parent(parent);
      }
    }

    /** `enable_cpus_topdown`: `visited` are the nodes on which the setter was called, in order. */
    method EnableCpusTopdown(root: Path, path: Path, cpus: Cpus) returns (ok: bool, visited: seq<Path>)
      requires Valid() && (v2 || Rooted(files, root)) && root <= path
      modifies this
      ensures Valid()
      ensures cpus == {} ==> ok && visited == [] && files == old(files)
      ensures |visited| <= |path| - |root| && forall i | 0 <= i < |visited| :: visited[i] == path[..|root| + 1 + i]
      ensures ok && cpus != {} ==>
                |visited| == |path| - |root| && files == Given(old(files), root, path, |path|, cpus)
      ensures ok <==> cpus == {} || path == root
                      || (Fits(old(files), v2, root, path, cpus) && Makeable(old(files), forbidden, root, path, |path|))
      ensures !ok ==> StoppedAt(old(files), files, forbidden, v2, root, path, |visited|, cpus)
    {
      visited := [];
      if cpus == {} {
        return true, visited;
      }
      ghost var was := files;

      var stack := Ancestors(root, path);
      ghost var n := |root|;
      while stack != []
        invariant n == |path| - |stack| && |visited| == n - |root|
        invariant forall i | 0 <= i < |stack| :: stack[i] == path[..|path| - i]
        invariant forall i | 0 <= i < |visited| :: visited[i] == path[..|root| + 1 + i]
        invariant Valid() && files == Given(was, root, path, n, cpus)
        invariant v2 || (ChildrenWithin(was, root, path, n, cpus) && (n > |root| ==> cpus <= was[root]))
        invariant Makeable(was, forbidden, root, path, n)
      {
        var p := stack[|stack| - 1];
        stack := stack[..|stack| - 1];
        n := n + 1;
        var called;
        ok, called := EnableOn(p, cpus, was, root, path, n);
        if called {
          visited := visited + [p];
        }
        if !ok {
          NoFurther(was, forbidden, v2, root, path, n, cpus);
          StopsHere(was, files, forbidden, v2, root, path, n, called, |visited|, cpus);
          return;
        }
      }
      ok := true;
    }
  }

  /** `post_create` of the cpuset controller: both files are inherited, each failure is only logged. */
  method PostCreate(cpus: Tree, mems: Tree, base: Path, path: Path)
    requires cpus != mems && cpus.v2 == mems.v2 && cpus.Valid() && mems.Valid()
    modifies cpus, mems
    ensures cpus.Valid() && mems.Valid()
    ensures cpus.v2 || path == base ==> cpus.files == old(cpus.files) && mems.files == old(mems.files)
    ensures !cpus.v2 && path != base ==>
              forall k: nat | Source(old(cpus.files), path, k) :: Inherited(old(cpus.files), cpus.files, path, k)
    ensures !cpus.v2 && path != base ==>
              forall k: nat | Source(old(mems.files), path, k) :: Inherited(old(mems.files), mems.files, path, k)
    // A walk that fails, or meets no value, changes nothing.
    ensures (forall k: nat :: !Source(old(cpus.files), path, k)) ==> cpus.files == old(cpus.files)
    ensures (forall k: nat :: !Source(old(mems.files), path, k)) ==> mems.files == old(mems.files)
  {
    if cpus.v2 {
      return;
    }
    if path != base {
      var copiedCpus := cpus.CopyFromParent(path);
      var copiedMems := mems.CopyFromParent(path);
    }
  }
}
