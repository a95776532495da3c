/**
 * `create_v2_cgroup`: creating a path in the unified hierarchy and enabling controllers along it,
 * under the kernel's top-down constraint.
 */
module Controllers {
  import opened Wrappers
  import opened CgroupTree

  /** The `cgroup.subtree_control` of every cgroup that exists. */
  type Delegations = map<Path, set<string>>

  datatype CreateError = SpecifiedControllers | FsError

  function Names(controllers: seq<string>): set<string> {
    set c | c in controllers
  }

  /** The `cgroup.controllers` of a node: what its parent delegates, or what the root supports. */
  function Available(subtree: Delegations, supported: set<string>, p: Path): set<string> {
    if p == [] then supported else if Parent(p) in subtree then subtree[Parent(p)] else {}
  }

  /** The top-down constraint: every parent exists and no cgroup delegates what it was not given. */
  ghost predicate TopDown(subtree: Delegations, supported: set<string>) {
    && [] in subtree && subtree[[]] <= supported
    && forall p, q {:trigger IsChild(p, q)} | IsChild(p, q) && q in subtree :: p in subtree && subtree[q] <= subtree[p]
  }

  function Ensure(subtree: Delegations, p: Path): Delegations {
    if p in subtree then subtree else subtree[p := {}]
  }

  function Grant(subtree: Delegations, p: Path, cs: set<string>): Delegations {
    Ensure(subtree, p)[p := Ensure(subtree, p)[p] + cs]
  }

  /** The first n nodes on the way to `path`, root first, exist and delegate `cs`. */
  function Delegated(was: Delegations, path: Path, n: nat, cs: set<string>): Delegations
    requires n <= |path| + 1
  {
    if n == 0 then was else Grant(Delegated(was, path, n - 1, cs), path[..n - 1], cs)
  }

  /** Exactly the first n nodes on the way gain `cs`; all others stay as they are. */
  lemma {:induction false} DelegatedMeans(was: Delegations, path: Path, n: nat, cs: set<string>)
    requires n <= |path| + 1
    ensures var now := Delegated(was, path, n, cs);
            && (forall q :: q in now <==> q in was || (|q| < n && q <= path))
            && (forall q | q in now ::
                  now[q] == (if q in was then was[q] else {}) + if |q| < n && q <= path then cs else {})
  {
    if n > 0 {
      DelegatedMeans(was, path, n - 1, cs);
      forall q
        ensures |q| < n && q <= path <==> (|q| < n - 1 && q <= path) || q == path[..n - 1]
      {
        assert q <= path ==> q == path[..|q|];
      }
    }
  }

  /** The components of a path text that `PathBuf::push` acts on. */
  function Components(elements: seq<string>): Path {
    if elements == [] then []
    else
      var last := elements[|elements| - 1];
      Components(elements[..|elements| - 1]) + if last == "" then [] else [last]
  }

  lemma {:induction false} ComponentsConcat(a: seq<string>, b: seq<string>)
    ensures Components(a + b) == Components(a) + Components(b)
  {
    if b == [] {
      assert a + b == a;
    } else {
      var init, last := b[..|b| - 1], b[|b| - 1];
      ComponentsConcat(a, init);
      assert (a + b)[..|a + b| - 1] == a + init && (a + b)[|a + b| - 1] == last;
    }
  }

  /** Each element names one directory more, but the empty one none. */
  lemma ComponentsOne(element: string)
    ensures Components([element]) == if element == "" then [] else [element]
  {
    assert [element][..0] == [];
  }

  /** A path text without empty elements names the path itself. */
  lemma {:induction false} ComponentsOfNames(path: Path)
    requires "" !in path
    ensures Components(path) == path
  {
    if path != [] {
      ComponentsOfNames(path[..|path| - 1]);
      assert path == path[..|path| - 1] + [path[|path| - 1]];
    }
  }

  lemma {:induction false} ComponentsPrefix(elements: seq<string>, i: nat)
    requires i <= |elements|
    ensures Components(elements[..i]) <= Components(elements)
    ensures |Components(elements)| <= |elements|
    decreases |elements|
  {
    if i == |elements| {
      assert elements[..i] == elements;
      if i > 0 {
        ComponentsPrefix(elements[..i - 1], 0);
      }
    } else {
      ComponentsPrefix(elements[..|elements| - 1], i);
      assert elements[..|elements| - 1][..i] == elements[..i];
    }
  }

  /** The depth of the first directory on the way that is missing and cannot be made, or one past the leaf. */
  function Blocked(was: Delegations, forbidden: set<Path>, path: Path, from: nat): (n: nat)
    requires from <= |path| + 1
    ensures from <= n <= |path| + 1
    ensures forall l | from <= l < n :: path[..l] in was || path[..l] !in forbidden
    ensures n <= |path| ==> path[..n] !in was && path[..n] in forbidden
    decreases |path| + 1 - from
  {
    if from > |path| || (path[..from] !in was && path[..from] in forbidden) then from
    else Blocked(was, forbidden, path, from + 1)
  }

  class Unified {
    var subtree: Delegations
    /** The "+c" writes the kernel did not take; the source ignores their errors. */
    var refused: seq<(Path, string)>
    const supported: seq<string>
    const forbidden: set<Path>

    constructor (subtree: Delegations, supported: seq<string>, forbidden: set<Path>)
      ensures this.subtree == subtree && this.supported == supported && this.forbidden == forbidden && refused == []
    {
      this.subtree, this.supported, this.forbidden, refused := subtree, supported, forbidden, [];
    }

    /** Writing "+c" to the `cgroup.subtree_control` of p. */
    method WriteSubtreeControl(p: Path, c: string)
      requires TopDown(subtree, Names(supported)) && p in subtree
      modifies this
      ensures TopDown(subtree, Names(supported))
      ensures c in Available(old(subtree), Names(supported), p) ==>
                subtree == old(subtree)[p := old(subtree)[p] + {c}] && refused == old(refused)
      ensures c !in Available(old(subtree), Names(supported), p) ==>
                subtree == old(subtree) && refused == old(refused) + [(p, c)]
    {
      if c in Available(subtree, Names(supported), p) {
        assert !IsChild(p, p);
        subtree := subtree[p := subtree[p] + {c}];
      } else {
        refused := refused + [(p, c)];
      }
    }

    method EnableControllers(controllers: seq<string>, p: Path)
      requires TopDown(subtree, Names(supported)) && p in subtree
      modifies this
      ensures TopDown(subtree, Names(supported))
      ensures Names(controllers) <= Available(old(subtree), Names(supported), p) ==>
                subtree == Grant(old(subtree), p, Names(controllers)) && refused == old(refused)
      // In any case exactly the ones that are available are added, and nothing else changes.
      ensures var available := Available(old(subtree), Names(supported), p);
              subtree == old(subtree)[p := old(subtree)[p] + Names(controllers) * available]
    {
      ghost var was, taken := subtree, Names(controllers) <= Available(subtree, Names(supported), p);
      ghost var available := Available(was, Names(supported), p);
      ghost var sofar: set<string> := {};
      GrantMore(was, p, {}, {});
      assert sofar * available == {};
      for i := 0 to |controllers|
        invariant TopDown(subtree, Names(supported)) && p in subtree
        invariant Names(controllers[..i]) == sofar
        invariant subtree == Grant(was, p, sofar * available)
        invariant taken ==> refused == old(refused)
      {
        assert controllers[..i + 1] == controllers[..i] + [controllers[i]];
        assert Available(subtree, Names(supported), p) == available;
        assert controllers[i] in Names(controllers);
        ghost var taking := {controllers[i]} * available;
        GrantMore(was, p, sofar * available, taking);
        assert (sofar + {controllers[i]}) * available == sofar * available + taking;
        WriteSubtreeControl(p, controllers[i]);
        if controllers[i] in available {
          assert taking == {controllers[i]};
        } else {
          assert taking == {} && sofar * available + taking == sofar * available;
        }
        sofar := sofar + {controllers[i]};
      }
      assert controllers[..|controllers|] == controllers;
      assert taken ==> Names(controllers) * available == Names(controllers);
    }

    /** `create_dir_all` on a path whose parent exists. */
    method CreateDir(p: Path) returns (ok: bool)
      requires TopDown(subtree, Names(supported)) && (p == [] || Parent(p) in subtree)
      modifies this`subtree
      ensures TopDown(subtree, Names(supported))
      ensures ok <==> p in old(subtree) || p !in forbidden
      ensures subtree == if ok then Ensure(old(subtree), p) else old(subtree)
    {
      ok := p in subtree || p !in forbidden;
      if ok && p !in subtree {
        subtree := subtree[p := {}];
      }
    }

    /**
     * `create_v2_cgroup`; `elements` are the parts of the path text between slashes, of which an
     * empty one names no further directory.
     */
    method CreateV2Cgroup(elements: seq<string>, specified: Option<seq<string>>) returns (r: Result<(), CreateError>)
      requires TopDown(subtree, Names(supported)) && elements != []
      modifies this
      ensures TopDown(subtree, Names(supported)) && refused == old(refused)
      ensures r == Err(SpecifiedControllers) <==> specified.Some? && !(Names(specified.value) <= Names(supported))
      ensures r == Err(SpecifiedControllers) ==> subtree == old(subtree)
      ensures r != Err(SpecifiedControllers) ==>
                var cs := Names(if specified.Some? then specified.value else supported);
                var path := Components(elements);
                var blocked := Blocked(old(subtree), forbidden, path, 1);
                && (r.Ok? <==> blocked > |path|)
                && (r.Ok? <==> forall l | 1 <= l <= |path| :: path[..l] in old(subtree) || path[..l] !in forbidden)
                && (r.Ok? ==> subtree == After(old(subtree), elements, |elements|, cs))
                && (r.Err? ==>
                      && r.error == FsError && blocked <= |path|
                      && subtree == Delegated(old(subtree), path, blocked, cs))
    {
      var controllers: seq<string>;
      if specified.Some? {
        var verified := VerifySupported(specified.value);
        if !verified {
          return Err(SpecifiedControllers);
        }
        controllers := specified.value;
      } else {
        controllers := supported;
      }
      var ok := BuildPath(elements, controllers);
      r := if ok then Ok(()) else Err(FsError);
    }

    /** One round of the loop: one more directory, which delegates unless it is the last one. */
    method AddElement(elements: seq<string>, i: nat, fp: Path, controllers: seq<string>, ghost was: Delegations)
      returns (ok: bool, now: Path)
      requires i < |elements| && fp == Components(elements[..i])
      requires TopDown(subtree, Names(supported)) && Names(controllers) <= Names(supported)
      requires subtree == After(was, elements, i, Names(controllers))
      modifies this
      ensures TopDown(subtree, Names(supported)) && refused == old(refused)
      ensures now == Components(elements[..i + 1])
      ensures ok <==> elements[i] == "" || now in was || now !in forbidden
      ensures subtree == if ok then After(was, elements, i + 1, Names(controllers)) else old(subtree)
    {
      AfterStep(was, elements, i, Names(controllers));
      Advance(elements, i);
      now := fp;
      if elements[i] != "" {
        now := now + [elements[i]];
      }
      ok := CreateDir(now);
      if ok && i < |elements| - 1 {
        EnableControllers(controllers, now);
      }
    }

    /** The directory hierarchy is built element by element, delegating in every parent on the way. */
    method BuildPath(elements: seq<string>, controllers: seq<string>) returns (ok: bool)
      requires TopDown(subtree, Names(supported)) && elements != [] && Names(controllers) <= Names(supported)
      modifies this
      ensures TopDown(subtree, Names(supported)) && refused == old(refused)
      ensures var path, cs := Components(elements), Names(controllers);
              var blocked := Blocked(old(subtree), forbidden, path, 1);
              if blocked > |path| then ok && subtree == After(old(subtree), elements, |elements|, cs)
              else !ok && subtree == Delegated(old(subtree), path, blocked, cs)
    {
      ghost var was, cs, path := subtree, Names(controllers), Components(elements);
      ghost var blocked := Blocked(was, forbidden, path, 1);
      var fp: Path := [];
      EnableControllers(controllers, fp);
      AfterStart(was, elements, cs);
      for i := 0 to |elements|
        invariant fp == Components(elements[..i]) && |fp| < blocked
        invariant TopDown(subtree, Names(supported)) && refused == old(refused)
        invariant subtree == After(was, elements, i, cs)
      {
        BlockedNext(was, forbidden, elements, i);
        ok, fp := AddElement(elements, i, fp, controllers, was);
        if !ok {
          return;
        }
      }
      assert elements[..|elements|] == elements;
      ok := true;
    }

    method VerifySupported(controllers: seq<string>) returns (ok: bool)
      ensures ok <==> Names(controllers) <= Names(supported)
    {
      for i := 0 to |controllers|
        invariant forall j | 0 <= j < i :: controllers[j] in supported
      {
        if controllers[i] !in supported {
          assert controllers[i] in Names(controllers);
          return false;
        }
      }
      ok := true;
    }
  }

  lemma GrantMore(subtree: Delegations, p: Path, a: set<string>, b: set<string>)
    requires p in subtree
    ensures Grant(Grant(subtree, p, a), p, b) == Grant(subtree, p, a + b)
    ensures Grant(subtree, p, a + b) == Grant(subtree, p, a)[p := Grant(subtree, p, a)[p] + b]
    ensures Grant(subtree, p, {}) == subtree
  {
    assert subtree[p] + a + b == subtree[p] + (a + b);
    assert subtree[p] + {} == subtree[p];
  }

  /** The depth of the directory that the first i elements of the path text name. */
  function Depth(elements: seq<string>, i: nat): (n: nat)
    requires i <= |elements|
    ensures n <= |Components(elements)|
  {
    ComponentsPrefix(elements, i);
    |Components(elements[..i])|
  }

  /** The hierarchy once the first i elements of the path text were handled. */
  function After(was: Delegations, elements: seq<string>, i: nat, cs: set<string>): Delegations
    requires i <= |elements| && elements != []
  {
    if i < |elements| then Delegated(was, Components(elements), Depth(elements, i) + 1, cs)
    else Ensure(Delegated(was, Components(elements), Depth(elements, i - 1) + 1, cs), Components(elements))
  }

  /** The directory a round of the loop works on. */
  lemma Advance(elements: seq<string>, i: nat)
    requires i < |elements|
    ensures var path := Components(elements);
            var now, next := Components(elements[..i]), Components(elements[..i + 1]);
            && next == now + (if elements[i] == "" then [] else [elements[i]])
            && now <= path && now == path[..|now|] && next <= path && next == path[..|next|]
            && (i == |elements| - 1 ==> next == path)
  {
    assert elements[..i + 1][..i] == elements[..i];
    ComponentsPrefix(elements, i);
    ComponentsPrefix(elements, i + 1);
    assert elements[..|elements|] == elements;
  }

  /** A directory that exists or can be made is not the blocked one, and any other is. */
  lemma BlockedNext(was: Delegations, forbidden: set<Path>, elements: seq<string>, i: nat)
    requires i < |elements| && |Components(elements[..i])| < Blocked(was, forbidden, Components(elements), 1)
    ensures var blocked, next := Blocked(was, forbidden, Components(elements), 1), Components(elements[..i + 1]);
            && |next| <= blocked && Components(elements[..i]) <= next <= Components(elements)
            && (next in was || next !in forbidden || elements[i] == "" ==> |next| < blocked)
            && (next !in was && next in forbidden && elements[i] != "" ==>
                  |next| == blocked && |next| == Depth(elements, i) + 1)
  {
    Advance(elements, i);
  }

  lemma AfterStart(was: Delegations, elements: seq<string>, cs: set<string>)
    requires elements != []
    ensures Components(elements[..0]) == [] && After(was, elements, 0, cs) == Grant(was, [], cs)
  {
    assert elements[..0] == [];
    assert Components(elements)[..0] == [];
    assert Delegated(was, Components(elements), 0, cs) == was;
  }

  /** Delegating once more on the last node that delegates changes nothing. */
  lemma StayOn(was: Delegations, path: Path, n: nat, cs: set<string>)
    requires n <= |path|
    ensures var now, p := Delegated(was, path, n + 1, cs), path[..n];
            && p in now && Ensure(now, p) == now && Grant(now, p, cs) == now
            && (p != [] ==> Parent(p) in now && cs <= now[Parent(p)])
  {
    DelegatedMeans(was, path, n + 1, cs);
    var before := Ensure(Delegated(was, path, n, cs), path[..n]);
    GrantMore(before, path[..n], cs, cs);
    assert cs + cs == cs;
    if n > 0 {
      assert Parent(path[..n]) == path[..n - 1];
    }
  }

  lemma GoDown(was: Delegations, path: Path, n: nat, cs: set<string>)
    requires n < |path|
    ensures var now, p := Delegated(was, path, n + 1, cs), path[..n + 1];
            && (p in now <==> p in was) && Parent(p) in now && cs <= now[Parent(p)]
            && Grant(Ensure(now, p), p, cs) == Delegated(was, path, n + 2, cs)
  {
    DelegatedMeans(was, path, n + 1, cs);
    assert Parent(path[..n + 1]) == path[..n];
  }

  /** What a round of the loop finds, and what it leaves. */
  lemma AfterStep(was: Delegations, elements: seq<string>, i: nat, cs: set<string>)
    requires i < |elements|
    ensures var fp := Components(elements[..i + 1]);
            var found, last := After(was, elements, i, cs), |elements| - 1;
            && (fp in found <==> fp in was || elements[i] == "")
            && (fp != [] ==> Parent(fp) in found && cs <= found[Parent(fp)])
            && After(was, elements, i + 1, cs)
                == if i < last then Grant(Ensure(found, fp), fp, cs) else Ensure(found, fp)
  {
    Advance(elements, i);
    if elements[i] == "" {
      StayOn(was, Components(elements), Depth(elements, i), cs);
    } else {
      GoDown(was, Components(elements), Depth(elements, i), cs);
    }
  }

  function Own(subtree: Delegations, p: Path): set<string> {
    if p in subtree then subtree[p] else {}
  }

  /** `now` has the whole path, with `cs` delegated by every strict ancestor, and is `was` elsewhere. */
  ghost predicate Created(was: Delegations, now: Delegations, path: Path, cs: set<string>) {
    && (forall q :: q in now <==> q in was || q <= path)
    && (forall q | q in now && q != path :: now[q] == Own(was, q) + if q <= path then cs else {})
  }

  lemma PrefixOfFullLength(q: Path, path: Path)
    requires q <= path && |q| >= |path|
    ensures q == path
  {
  }

  lemma PathIsCreated(was: Delegations, path: Path, n: nat, cs: set<string>)
    requires |path| <= n <= |path| + 1
    ensures Created(was, Ensure(Delegated(was, path, n, cs), path), path, cs)
  {
    DelegatedMeans(was, path, n, cs);
    forall q | q <= path && q != path
      ensures |q| < n
    {
      if |q| >= |path| {
        PrefixOfFullLength(q, path);
      }
    }
  }

  lemma LeafMeans(was: Delegations, path: Path, n: nat, cs: set<string>)
    requires |path| <= n <= |path| + 1
    ensures Ensure(Delegated(was, path, n, cs), path)[path]
              == if n == |path| then Own(was, path) else Own(was, path) + cs
  {
    var given := Delegated(was, path, n, cs);
    DelegatedMeans(was, path, n, cs);
    assert path in given ==> given[path] == Own(was, path) + if |path| < n then cs else {};
    assert Own(was, path) + {} == Own(was, path);
  }

  /** The whole path is there, so its parent delegates the whole set to it. */
  lemma ParentDelegates(was: Delegations, now: Delegations, path: Path, cs: set<string>)
    requires Created(was, now, path, cs) && path != []
    ensures Parent(path) in now && cs <= now[Parent(path)]
  {
    assert Parent(path) <= path && Parent(path) != path;
  }

  /**
   * The hierarchy a successful call leaves. The leaf has the whole set available, and its own control
   * file stays as it is unless the path text ends in a slash.
   */
  lemma CreatedMeans(was: Delegations, elements: seq<string>, cs: set<string>)
    requires elements != [] && [] in was
    ensures var now, path := After(was, elements, |elements|, cs), Components(elements);
            && Created(was, now, path, cs)
            && (path != [] ==> cs <= now[Parent(path)])
            && (now[path] == Own(was, path) <==> (elements[|elements| - 1] != "" || cs <= Own(was, path)))
  {
    var path, last := Components(elements), |elements| - 1;
    Advance(elements, last);
    var n := Depth(elements, last) + 1;
    assert n == |path| <==> elements[last] != "";
    PathIsCreated(was, path, n, cs);
    LeafMeans(was, path, n, cs);
    if path != [] {
      ParentDelegates(was, After(was, elements, |elements|, cs), path, cs);
    }
    assert cs <= Own(was, path) <==> Own(was, path) + cs == Own(was, path);
  }

  /** The same node by node, for a path without empty elements. */
  lemma CreatedInFull(was: Delegations, path: Path, cs: set<string>)
    requires path != [] && "" !in path && [] in was
    ensures var now := After(was, path, |path|, cs);
            && (forall q :: q in now <==> q in was || q <= path)
            && (forall q | q <= path && q != path :: now[q] == (if q in was then was[q] else {}) + cs)
            && now[path] == (if path in was then was[path] else {})
            && (forall q | q in was && !(q <= path) :: now[q] == was[q])
  {
    ComponentsOfNames(path);
    CreatedMeans(was, path, cs);
    assert path[|path| - 1] in path;
    forall q | q in was && !(q <= path)
      ensures Own(was, q) + {} == was[q]
    {
    }
  }
}
