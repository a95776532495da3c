/** The pieces of Rust's `str` API that the text formats are built from. */
module Text {

  /** `str::split` on a set of separator characters: always at least one part. */
  function Split(s: string, seps: set<char>): (parts: seq<string>)
    ensures parts != []
  {
    if s == [] then [[]]
    else if s[0] in seps then [[]] + Split(s[1..], seps)
    else
      var rest := Split(s[1..], seps);
      [[s[0]] + rest[0]] + rest[1..]
  }

  function Join(parts: seq<string>, sep: string): string {
    if parts == [] then []
    else if |parts| == 1 then parts[0]
    else parts[0] + sep + Join(parts[1..], sep)
  }

  predicate Free(s: string, seps: set<char>) {
    forall i | 0 <= i < |s| :: s[i] !in seps
  }

  lemma {:induction false} SplitFree(s: string, seps: set<char>)
    requires Free(s, seps)
    ensures Split(s, seps) == [s]
  {
    if s != [] {
      SplitFree(s[1..], seps);
      assert [s[0]] + s[1..] == s;
    }
  }

  /** A separator ends the first part exactly where it stands. */
  lemma {:induction false} SplitConcat(a: string, c: char, b: string, seps: set<char>)
    requires Free(a, seps) && c in seps
    ensures Split(a + [c] + b, seps) == [a] + Split(b, seps)
  {
    if a == [] {
      assert a + [c] + b == [c] + b;
      assert ([c] + b)[1..] == b;
    } else {
      assert (a + [c] + b)[1..] == a[1..] + [c] + b;
      SplitConcat(a[1..], c, b, seps);
      assert [a[0]] + a[1..] == a;
    }
  }

  /** What the first character does to the parts of the rest. */
  function Prefixed(c: char, rest: seq<string>, seps: set<char>): seq<string>
    requires rest != []
  {
    if c in seps then [[]] + rest else [[c] + rest[0]] + rest[1..]
  }

  lemma SplitStep(s: string, seps: set<char>)
    requires s != ""
    ensures Split(s, seps) == Prefixed(s[0], Split(s[1..], seps), seps)
  {
  }

  lemma SplitHead(c: char, a: string, more: seq<string>, seps: set<char>)
    ensures Prefixed(c, Split(a, seps) + more, seps) == Prefixed(c, Split(a, seps), seps) + more
  {
    var first := Split(a, seps);
    var all := first + more;
    if c in seps {
      assert [[]] + all == [[]] + first + more;
    } else {
      var head := [[c] + first[0]];
      assert all[0] == first[0] && all[1..] == first[1..] + more;
      assert head + (first[1..] + more) == head + first[1..] + more;
    }
  }

  /** Splitting cuts at every separator: with SplitFree this fixes it for every text. */
  lemma {:induction false} SplitAt(a: string, c: char, b: string, seps: set<char>)
    requires c in seps
    ensures Split(a + [c] + b, seps) == Split(a, seps) + Split(b, seps)
  {
    if a == [] {
      assert a + [c] + b == [c] + b;
      assert ([c] + b)[1..] == b;
    } else {
      assert (a + [c] + b)[1..] == a[1..] + [c] + b;
      SplitAt(a[1..], c, b, seps);
      SplitHead(a[0], a[1..], Split(b, seps), seps);
      SplitStep(a + [c] + b, seps);
    }
  }

  function Count(s: string, chars: set<char>): nat {
    if s == [] then 0 else (if s[0] in chars then 1 else 0) + Count(s[1..], chars)
  }

  lemma {:induction false} SplitCount(s: string, seps: set<char>)
    ensures |Split(s, seps)| == Count(s, seps) + 1
  {
    if s != [] {
      SplitCount(s[1..], seps);
    }
  }

  /** Splitting gives one part more than there are separators; it is trivial only without one. */
  lemma {:induction false} SplitSingle(s: string, seps: set<char>)
    ensures |Split(s, seps)| == 1 <==> Free(s, seps)
  {
    if s != [] {
      SplitSingle(s[1..], seps);
    }
  }

  /** Joining what was split gives the text back. */
  lemma {:induction false} JoinSplit(s: string, c: char)
    ensures Join(Split(s, {c}), [c]) == s
  {
    if s != [] {
      JoinSplit(s[1..], c);
      var rest := Split(s[1..], {c});
      if s[0] == c {
        assert ([[]] + rest)[1..] == rest;
      } else if |rest| > 1 {
        assert ([[s[0]] + rest[0]] + rest[1..])[1..] == rest[1..];
      }
    }
  }

  /** Splitting what was joined gives the parts back. */
  lemma {:induction false} SplitJoin(parts: seq<string>, c: char)
    requires parts != [] && forall p | p in parts :: Free(p, {c})
    ensures Split(Join(parts, [c]), {c}) == parts
  {
    if |parts| == 1 {
      SplitFree(parts[0], {c});
    } else {
      assert parts[0] in parts && forall p | p in parts[1..] :: p in parts;
      SplitJoin(parts[1..], c);
      assert parts == [parts[0]] + parts[1..];
      SplitConcat(parts[0], c, Join(parts[1..], [c]), {c});
    }
  }

  /** The characters with Unicode's White_Space property, which `trim` strips. */
  const WHITESPACE: set<char> :=
    {'\t', '\n', '\U{0B}', '\U{0C}', '\r', ' ', '\U{85}', '\U{A0}', '\U{1680}',
     '\U{2000}', '\U{2001}', '\U{2002}', '\U{2003}', '\U{2004}', '\U{2005}', '\U{2006}', '\U{2007}',
     '\U{2008}', '\U{2009}', '\U{200A}', '\U{2028}', '\U{2029}', '\U{202F}', '\U{205F}', '\U{3000}'}

  lemma AsciiWhitespace(c: char)
    requires c < '\U{80}'
    ensures c in WHITESPACE <==> c == ' ' || '\t' <= c <= '\r'
  {
  }

  function TrimStart(s: string): string {
    if s != [] && s[0] in WHITESPACE then TrimStart(s[1..]) else s
  }

  function TrimEnd(s: string): string {
    if s != [] && s[|s| - 1] in WHITESPACE then TrimEnd(s[..|s| - 1]) else s
  }

  function Trim(s: string): string {
    TrimEnd(TrimStart(s))
  }

  /** `str::split_whitespace`: the non-empty parts between runs of white space. */
  function Words(s: string): seq<string> {
    NonEmpty(Split(s, WHITESPACE))
  }

  function NonEmpty(parts: seq<string>): seq<string> {
    if parts == [] then []
    else (if parts[0] == [] then [] else [parts[0]]) + NonEmpty(parts[1..])
  }

  lemma {:induction false} WordsJoin(parts: seq<string>)
    requires forall p | p in parts :: p != [] && Free(p, WHITESPACE)
    ensures Words(Join(parts, " ")) == parts
  {
    if parts == [] {
      assert NonEmpty([[]]) == NonEmpty([[]][1..]);
    } else if |parts| == 1 {
      assert parts[0] in parts;
      SplitFree(parts[0], WHITESPACE);
      assert NonEmpty(parts) == [parts[0]] + NonEmpty(parts[1..]);
    } else {
      assert forall p | p in parts[1..] :: p in parts;
      WordsJoin(parts[1..]);
      assert parts[0] in parts;
      SplitConcat(parts[0], ' ', Join(parts[1..], " "), WHITESPACE);
      var rest := Split(Join(parts[1..], " "), WHITESPACE);
      assert ([parts[0]] + rest)[1..] == rest;
      assert parts == [parts[0]] + parts[1..];
      assert Join(parts, " ") == parts[0] + [' '] + Join(parts[1..], " ");
    }
  }

  lemma {:induction false} NonEmptyConcat(a: seq<string>, b: seq<string>)
    ensures NonEmpty(a + b) == NonEmpty(a) + NonEmpty(b)
  {
    if a == [] {
      assert a + b == b;
    } else {
      assert (a + b)[1..] == a[1..] + b;
      NonEmptyConcat(a[1..], b);
    }
  }

  /** Any white space separates words, however much of it there is; WordsOne has the rest. */
  lemma WordsAt(a: string, c: char, b: string)
    requires c in WHITESPACE
    ensures Words(a + [c] + b) == Words(a) + Words(b)
  {
    SplitAt(a, c, b, WHITESPACE);
    NonEmptyConcat(Split(a, WHITESPACE), Split(b, WHITESPACE));
  }

  lemma WordsOne(w: string)
    requires Free(w, WHITESPACE)
    ensures Words(w) == if w == "" then [] else [w]
  {
    SplitFree(w, WHITESPACE);
    var parts := [w];
    assert NonEmpty(parts) == (if w == [] then [] else [w]) + NonEmpty(parts[1..]);
  }

  predicate Blank(s: string) {
    forall i | 0 <= i < |s| :: s[i] in WHITESPACE
  }

  /** No white space at either end. */
  predicate Tight(s: string) {
    s != "" ==> s[0] !in WHITESPACE && s[|s| - 1] !in WHITESPACE
  }

  lemma {:induction false} TrimStartBlank(a: string, s: string)
    requires Blank(a) && (s != "" ==> s[0] !in WHITESPACE)
    ensures TrimStart(a + s) == s
  {
    if a == "" {
      assert a + s == s;
    } else {
      assert (a + s)[1..] == a[1..] + s;
      TrimStartBlank(a[1..], s);
    }
  }

  lemma {:induction false} TrimEndBlank(s: string, b: string)
    requires Blank(b) && (s != "" ==> s[|s| - 1] !in WHITESPACE)
    ensures TrimEnd(s + b) == s
  {
    if b == "" {
      assert s + b == s;
    } else {
      assert (s + b)[..|s + b| - 1] == s + b[..|b| - 1];
      TrimEndBlank(s, b[..|b| - 1]);
    }
  }

  /** Trimming takes away all white space at both ends and nothing else. */
  lemma TrimBlank(a: string, s: string, b: string)
    requires Blank(a) && Blank(b) && Tight(s)
    ensures Trim(a + s + b) == s
  {
    if s == "" {
      assert a + s + b == (a + b) + "";
      TrimStartBlank(a + b, "");
    } else {
      assert a + s + b == a + (s + b) && (s + b)[0] == s[0];
      TrimStartBlank(a, s + b);
      TrimEndBlank(s, b);
    }
  }
}
