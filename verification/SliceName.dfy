/** `expand_slice`: from the name of a systemd slice to its path in the filesystem. */
module SliceName {
  import opened Wrappers
  import opened Text

  datatype Error = InvalidArgument

  const SUFFIX := ".slice"

  predicate EndsWith(s: string, suffix: string) {
    |suffix| <= |s| && s[|s| - |suffix|..] == suffix
  }

  /** `trim_end_matches`: every repetition of the suffix goes. */
  function Stripped(s: string): (name: string)
    ensures !EndsWith(name, SUFFIX)
  {
    if EndsWith(s, SUFFIX) then Stripped(s[..|s| - |SUFFIX|]) else s
  }

  function Parts(name: string): seq<string> {
    Split(name, {'-'})
  }

  /** The i-th component joins the first i + 1 dash-parts of the name. */
  function Component(name: string, i: nat): string
    requires i < |Parts(name)|
  {
    Join(Parts(name)[..i + 1], "-") + SUFFIX
  }

  function Components(name: string, n: nat): (cs: seq<string>)
    requires n <= |Parts(name)|
    ensures |cs| == n
  {
    if n == 0 then [] else Components(name, n - 1) + [Component(name, n - 1)]
  }

  lemma {:induction false} ComponentAt(name: string, n: nat, i: nat)
    requires i < n <= |Parts(name)|
    ensures Components(name, n)[i] == Component(name, i)
  {
    if i < n - 1 {
      ComponentAt(name, n - 1, i);
    }
  }

  function Path(name: string): string {
    Join(Components(name, |Parts(name)|), "/")
  }

  function Expanded(name: string): string {
    if name == "-" then "" else Path(name)
  }

  predicate Expandable(slice: string) {
    && EndsWith(slice, SUFFIX) && '/' !in slice
    && (Stripped(slice) == "-" || "" !in Parts(Stripped(slice)))
  }

  /** Every part followed by a dash: the prefix the loop builds. */
  function Dashed(parts: seq<string>): string {
    if parts == [] then "" else Dashed(parts[..|parts| - 1]) + parts[|parts| - 1] + "-"
  }

  /** Every component after a slash: the path the loop builds. */
  function Slashed(cs: seq<string>): string {
    if cs == [] then "" else Slashed(cs[..|cs| - 1]) + "/" + cs[|cs| - 1]
  }

  lemma {:induction false} JoinMore(parts: seq<string>, p: string, sep: string)
    requires parts != []
    ensures Join(parts + [p], sep) == Join(parts, sep) + sep + p
  {
    if |parts| == 1 {
      assert (parts + [p])[1..] == [p];
    } else {
      JoinMore(parts[1..], p, sep);
      assert (parts + [p])[1..] == parts[1..] + [p];
    }
  }

  lemma {:induction false} DashedIsJoin(parts: seq<string>, n: nat)
    requires n < |parts|
    ensures Dashed(parts[..n]) + parts[n] == Join(parts[..n + 1], "-")
  {
    if n == 0 {
      assert parts[..1] == [parts[0]];
    } else {
      DashedIsJoin(parts, n - 1);
      assert parts[..n][..n - 1] == parts[..n - 1];
      JoinMore(parts[..n], parts[n], "-");
      assert parts[..n + 1] == parts[..n] + [parts[n]];
    }
  }

  lemma Associate(a: string, b: string, c: string, d: string)
    ensures a + b + c + d == a + (b + c + d)
  {
  }

  lemma {:induction false} SlashedIsJoin(cs: seq<string>)
    requires cs != []
    ensures Slashed(cs) == "/" + Join(cs, "/")
  {
    var init, last := cs[..|cs| - 1], cs[|cs| - 1];
    if init == [] {
      assert Slashed(init) == "" && Join(cs, "/") == last;
      assert "" + "/" + last == "/" + last;
    } else {
      SlashedIsJoin(init);
      JoinMore(init, last, "/");
      assert cs == init + [last];
      Associate("/", Join(init, "/"), "/", last);
    }
  }

  lemma NextPrefix(parts: seq<string>, i: nat)
    requires i < |parts|
    ensures Dashed(parts[..i + 1]) == Dashed(parts[..i]) + parts[i] + "-"
  {
    assert parts[..i + 1][..i] == parts[..i];
  }

  lemma NextSlashed(name: string, i: nat)
    requires i < |Parts(name)|
    ensures Slashed(Components(name, i + 1)) == Slashed(Components(name, i)) + "/" + Component(name, i)
  {
    var cs := Components(name, i + 1);
    ComponentAt(name, i + 1, i);
    assert cs[..i] == Components(name, i);
  }

  /** What one round of the loop adds to the path. */
  lemma NextComponent(name: string, i: nat)
    requires i < |Parts(name)|
    ensures var parts := Parts(name);
            Slashed(Components(name, i + 1))
              == Slashed(Components(name, i)) + "/" + Dashed(parts[..i]) + parts[i] + SUFFIX
  {
    var parts, path := Parts(name), Slashed(Components(name, i)) + "/";
    NextSlashed(name, i);
    DashedIsJoin(parts, i);
    Associate(path, Dashed(parts[..i]), parts[i], SUFFIX);
  }

  lemma WithoutFirstSlash(name: string)
    ensures var slashed := Slashed(Components(name, |Parts(name)|)); slashed != "" && slashed[1..] == Path(name)
  {
    var cs := Components(name, |Parts(name)|);
    SlashedIsJoin(cs);
    var joined := Join(cs, "/");
    assert ("/" + joined)[1..] == joined;
  }

  /** One round of the loop: the next component goes to the path, the next part to the prefix. */
  method AddPart(name: string, i: nat, path: string, prefix: string, subSlice: string)
    returns (longer: string, next: string)
    requires i < |Parts(name)| && subSlice == Parts(name)[i]
    requires prefix == Dashed(Parts(name)[..i]) && path == Slashed(Components(name, i))
    ensures next == Dashed(Parts(name)[..i + 1]) && longer == Slashed(Components(name, i + 1))
  {
    NextComponent(name, i);
    NextPrefix(Parts(name), i);
    longer := path + "/" + prefix + subSlice + SUFFIX;
    next := prefix + subSlice + "-";
  }

  /** The loop over the parts of the name; None if one of them is empty. */
  method ExpandParts(name: string) returns (r: Option<string>)
    ensures r == if "" in Parts(name) then None else Some(Path(name))
  {
    var slicePath, prefix, parts := "", "", Parts(name);
    for i := 0 to |parts|
      invariant "" !in parts[..i]
      invariant prefix == Dashed(parts[..i]) && slicePath == Slashed(Components(name, i))
    {
      var subSlice := parts[i];
      if subSlice == "" {
        return None;
      }
      assert parts[..i + 1] == parts[..i] + [subSlice];
      slicePath, prefix := AddPart(name, i, slicePath, prefix, subSlice);
    }
    assert parts[..|parts|] == parts;
    WithoutFirstSlash(name);
    // The path is relative, so the first slash goes.
    r := Some(slicePath[1..]);
  }

  method ExpandSlice(slice: string) returns (r: Result<string, Error>)
    ensures r.Ok? <==> Expandable(slice)
    ensures r.Ok? ==> r.value == Expanded(Stripped(slice))
  {
    if !EndsWith(slice, SUFFIX) || |slice| < |SUFFIX| {
      return Err(InvalidArgument);
    }
    if '/' in slice {
      return Err(InvalidArgument);
    }
    var name := Stripped(slice);
    if name == "-" {
      return Ok("");
    }
    var path := ExpandParts(name);
    r := if path.Some? then Ok(path.value) else Err(InvalidArgument);
  }

  function Dashes(s: string): nat {
    if s == "" then 0 else (if s[0] == '-' then 1 else 0) + Dashes(s[1..])
  }

  lemma {:induction false} PartsCount(s: string)
    ensures |Parts(s)| == Dashes(s) + 1
  {
    if s != "" {
      PartsCount(s[1..]);
    }
  }

  /** Joining the first parts gives a prefix of joining all of them. */
  lemma {:induction false} JoinPrefix(parts: seq<string>, i: nat)
    requires 0 < i <= |parts|
    ensures Join(parts[..i], "-") <= Join(parts, "-")
    decreases |parts|
  {
    if i == |parts| {
      assert parts[..i] == parts;
    } else {
      var n := |parts| - 1;
      JoinPrefix(parts[..n], i);
      assert parts[..n][..i] == parts[..i];
      JoinMore(parts[..n], parts[n], "-");
      assert parts == parts[..n] + [parts[n]];
    }
  }

  /** A slice whose stripped name is a prefix of the given one. */
  predicate NamesAncestor(c: string, name: string) {
    EndsWith(c, SUFFIX) && c[..|c| - |SUFFIX|] <= name
  }

  lemma ComponentNames(name: string, i: nat)
    requires '/' !in name && i < |Parts(name)|
    ensures var c := Component(name, i);
            Free(c, {'/'}) && NamesAncestor(c, name)
    ensures i == |Parts(name)| - 1 ==> Component(name, i) == name + SUFFIX
  {
    var parts := Parts(name);
    JoinSplit(name, '-');
    JoinPrefix(parts, i + 1);
    var own := Join(parts[..i + 1], "-");
    assert forall k | 0 <= k < |own| :: own[k] == name[k];
    assert Component(name, i)[..|own|] == own;
    assert parts[..|parts|] == parts;
  }

  lemma LastComponent(name: string)
    requires '/' !in name
    ensures Components(name, |Parts(name)|)[|Parts(name)| - 1] == name + SUFFIX
  {
    ComponentAt(name, |Parts(name)|, |Parts(name)| - 1);
    ComponentNames(name, |Parts(name)| - 1);
  }

  lemma PathSplits(name: string)
    requires '/' !in name
    ensures Split(Path(name), {'/'}) == Components(name, |Parts(name)|)
  {
    var cs := Components(name, |Parts(name)|);
    forall c | c in cs
      ensures Free(c, {'/'})
    {
      var i :| 0 <= i < |cs| && cs[i] == c;
      ComponentAt(name, |cs|, i);
      ComponentNames(name, i);
    }
    SplitJoin(cs, '/');
  }

  /**
   * The path of a name with k dashes has k + 1 components between its slashes, each naming a slice
   * whose stripped name is a prefix of the whole one, and the last one naming the slice itself.
   */
  lemma PathHasTheComponents(name: string)
    requires '/' !in name
    ensures var cs := Components(name, |Parts(name)|);
            && Split(Path(name), {'/'}) == cs && |cs| == Dashes(name) + 1
            && cs[|cs| - 1] == name + SUFFIX
            && (forall i | 0 <= i < |cs| :: NamesAncestor(cs[i], name))
  {
    var cs := Components(name, |Parts(name)|);
    PathSplits(name);
    PartsCount(name);
    forall i | 0 <= i < |cs|
      ensures NamesAncestor(cs[i], name)
    {
      ComponentAt(name, |cs|, i);
      ComponentNames(name, i);
    }
    LastComponent(name);
  }

  function LastSegment(path: string): string {
    var segments := Split(path, {'/'});
    segments[|segments| - 1]
  }

  /** The last segment of the path gives the name back. */
  lemma LastSegmentIsName(name: string)
    requires '/' !in name
    ensures LastSegment(Expanded(name)) == if name == "-" then "" else name + SUFFIX
  {
    if name != "-" {
      PathHasTheComponents(name);
    }
  }

  /** Names without a slash have the same path only if they are the same. */
  lemma ExpandedIsInjective(a: string, b: string)
    requires '/' !in a && '/' !in b
    ensures Expanded(a) == Expanded(b) <==> a == b
  {
    LastSegmentIsName(a);
    LastSegmentIsName(b);
    SameSuffix(a, b, SUFFIX);
  }

  lemma SameSuffix(a: string, b: string, suffix: string)
    ensures a + suffix == b + suffix ==> a == b
  {
    assert a == (a + suffix)[..|a|];
    if a + suffix == b + suffix {
      assert |a| == |b|;
      assert b == (b + suffix)[..|b|];
    }
  }

  /** Two accepted slices expand to the same path exactly if they are the same once stripped. */
  lemma ExpansionIsInjective(s: string, t: string)
    requires Expandable(s) && Expandable(t)
    ensures Expanded(Stripped(s)) == Expanded(Stripped(t)) <==> Stripped(s) == Stripped(t)
  {
    StrippedIsPrefix(s);
    StrippedIsPrefix(t);
    ExpandedIsInjective(Stripped(s), Stripped(t));
  }

  lemma {:induction false} StrippedIsPrefix(s: string)
    ensures Stripped(s) <= s
  {
    if EndsWith(s, SUFFIX) {
      StrippedIsPrefix(s[..|s| - |SUFFIX|]);
    }
  }

  /** The suffix alone, once or repeated, names no slice. */
  lemma OnlySuffixIsRejected(s: string)
    requires Stripped(s) == ""
    ensures !Expandable(s)
  {
    assert Parts("") == [""];
  }

  /** Two names that differ only in how often they repeat the suffix have the same path. */
  lemma RepeatedSuffixCollides()
    ensures var s, t := "a.slice.slice", "a.slice";
            && s != t && Expandable(s) && Expandable(t)
            && Expanded(Stripped(s)) == Expanded(Stripped(t)) == "a.slice"
  {
    var s, t := "a.slice.slice", "a.slice";
    assert s[..|s| - |SUFFIX|] == t && t[..|t| - |SUFFIX|] == "a";
    assert s[|s| - |SUFFIX|..] == SUFFIX && t[|t| - |SUFFIX|..] == SUFFIX;
    assert Stripped(t) == Stripped("a") == "a";
    assert Parts("a") == ["a"] by {
      SplitFree("a", {'-'});
    }
    assert Components("a", 1) == [Component("a", 0)] && Parts("a")[..1] == ["a"];
    assert Component("a", 0) == "a" + SUFFIX;
  }

  // What the expansion does to a text, whatever the text is.

  function Suffixes(k: nat): string {
    if k == 0 then "" else Suffixes(k - 1) + ".slice"
  }

  lemma MoreSuffixes(name: string, k: nat)
    ensures name + Suffixes(k) + ".slice" == name + Suffixes(k + 1)
  {
    assert name + Suffixes(k) + ".slice" == name + (Suffixes(k) + ".slice");
  }

  /** Stripping takes away repetitions of the suffix and nothing else. */
  lemma {:induction false} StrippedLosesSuffixes(s: string) returns (k: nat)
    ensures s == Stripped(s) + Suffixes(k)
  {
    k := 0;
    if EndsWith(s, SUFFIX) {
      var init := s[..|s| - |SUFFIX|];
      k := StrippedLosesSuffixes(init);
      assert s == init + ".slice";
      MoreSuffixes(Stripped(init), k);
      k := k + 1;
    }
  }

  /** And it takes away all of them. */
  lemma {:induction false} SuffixesAreStripped(name: string, k: nat)
    requires !EndsWith(name, ".slice")
    ensures Stripped(name + Suffixes(k)) == name
  {
    if k == 0 {
      assert name + Suffixes(0) == name;
    } else {
      var init := name + Suffixes(k - 1);
      SuffixesAreStripped(name, k - 1);
      assert name + Suffixes(k) == init + ".slice";
      assert (init + ".slice")[..|init|] == init && (init + ".slice")[|init|..] == ".slice";
    }
  }

  /** Which texts are slices: a suffix at least once, no slash, and no empty part before it. */
  lemma AcceptedNames(name: string, k: nat)
    requires !EndsWith(name, ".slice")
    ensures Expandable(name + Suffixes(k)) <==>
              k > 0 && '/' !in name && (name == "-" || "" !in Split(name, {'-'}))
  {
    SuffixesAreStripped(name, k);
    if k == 0 {
      assert name + Suffixes(0) == name;
    } else {
      var init := name + Suffixes(k - 1);
      assert name + Suffixes(k) == init + ".slice" && (init + ".slice")[|init|..] == ".slice";
    }
    NoSlashInSuffixes(k);
  }

  lemma {:induction false} NoSlashInSuffixes(k: nat)
    ensures '/' !in Suffixes(k)
  {
    if k > 0 {
      NoSlashInSuffixes(k - 1);
    }
  }

  /** The path of an accepted name: segment i is the first i + 1 dash-parts and the suffix, the last is the slice. */
  lemma PathOfName(name: string, k: nat)
    requires !EndsWith(name, ".slice") && '/' !in name && name != "-"
    ensures var segments := Split(Expanded(Stripped(name + Suffixes(k))), {'/'});
            && |segments| == Dashes(name) + 1
            && segments[Dashes(name)] == name + ".slice"
            && (forall i | 0 <= i < |segments| ::
                  |Split(name, {'-'})| == |segments|
                  && segments[i] == Join(Split(name, {'-'})[..i + 1], "-") + ".slice")
  {
    SuffixesAreStripped(name, k);
    PathHasTheComponents(name);
    var cs := Components(name, |Parts(name)|);
    PartsCount(name);
    forall i | 0 <= i < |cs|
      ensures cs[i] == Join(Split(name, {'-'})[..i + 1], "-") + ".slice"
    {
      ComponentAt(name, |cs|, i);
    }
  }

  /** A lone dash names the root slice. */
  lemma RootSlice(k: nat)
    requires k > 0
    ensures Expandable("-" + Suffixes(k)) && Expanded(Stripped("-" + Suffixes(k))) == ""
  {
    AcceptedNames("-", k);
    SuffixesAreStripped("-", k);
  }

  lemma OneDashParts(a: string, b: string)
    requires Free(a, {'-'}) && Free(b, {'-'})
    ensures Parts(a + "-" + b) == [a, b]
  {
    SplitFree(b, {'-'});
    SplitConcat(a, '-', b, {'-'});
    assert a + ['-'] + b == a + "-" + b;
  }

  lemma JoinTwo(a: string, b: string, sep: string)
    ensures Join([a, b], sep) == a + sep + b && Join([a], sep) == a
  {
    assert [a, b][1..] == [b];
  }

  /** With one dash: "a-b.slice" lies below "a.slice". */
  lemma OneDash(a: string, b: string)
    requires Free(a, {'-'}) && Free(b, {'-'}) && a != "" && b != ""
    ensures Expanded(a + "-" + b) == a + ".slice" + "/" + (a + "-" + b + ".slice")
  {
    var name := a + "-" + b;
    OneDashParts(a, b);
    var parts := Parts(name);
    assert parts[..1] == [a] && parts[..2] == parts;
    JoinTwo(a, b, "-");
    var cs := Components(name, 2);
    ComponentAt(name, 2, 0);
    ComponentAt(name, 2, 1);
    assert cs == [a + ".slice", name + ".slice"];
    JoinTwo(a + ".slice", name + ".slice", "/");
  }
}
