/** Matching paths against globs: the leading double star, the base-name rule, and lists of patterns. */
module GlobPaths {
  import opened Wrappers
  import opened Regex
  import opened GlobMatch

  // ----- zero or more leading segments -----

  /** Prefixing a glob with a double star and a slash means: the path itself, or what follows one of its
      slashes, is accepted. */
  ghost predicate PrefixLaw(g: string, p: string) {
    Test(Compile("**/" + g), p) <==> Test(Compile(g), p) || exists i :: 0 <= i < |p| && SuffixAccepted(g, p, i)
  }

  predicate SuffixAccepted(g: string, p: string, i: nat)
    requires i < |p|
  {
    p[i] == '/' && Test(Compile(g), p[i + 1..])
  }

  lemma PlainMeaning(g: string, p: string)
    requires NoTerminator(p)
    ensures Test(Compile(g), p) <==> GlobAccepts(false, g, p)
  {
    CompiledMeansStrict(g, p);
    StrictIsPlainGlob(g, p);
  }

  lemma PrefixLawHolds(g: string, p: string)
    requires NoTerminator(p) && !StartsWith(g, "**/")
    ensures PrefixLaw(g, p)
  {
    PlainMeaning("**/" + g, p);
    PlainMeaning(g, p);
    assert ("**/" + g)[3..] == g && StartsWith("**/" + g, "**/");
    forall i | 0 <= i < |p|
      ensures SuffixAccepted(g, p, i) <==> AfterSlash(false, g, p, i)
    {
      PlainMeaning(g, p[i + 1..]);
    }
  }

  /** Some terminator-free string that the glob body matches. */
  function Instance(h: string): string {
    if h == "" then ""
    else if h[0] == '*' then Instance(h[1..])
    else [if h[0] == '?' then 'a' else h[0]] + Instance(h[1..])
  }

  lemma {:induction false} InstanceMatches(h: string)
    requires NoTerminator(h)
    ensures Matches(false, h, Instance(h)) && NoTerminator(Instance(h))
    ensures NoSlash(h) ==> NoSlash(Instance(h))
    decreases |h|
  {
    if h == "" {
    } else if StartsWith(h, "**") {
      StartsDouble(h);
      assert h[1..][0] == '*' && h[1..][1..] == h[2..];
      assert Instance(h) == Instance(h[2..]);
      InstanceMatches(h[2..]);
      TakesNothing(h, h[2..], Instance(h[2..]));
    } else if h[0] == '*' {
      InstanceMatches(h[1..]);
      TakesNothing(h, h[1..], Instance(h[1..]));
    } else {
      InstanceMatches(h[1..]);
      assert Instance(h)[1..] == Instance(h[1..]);
    }
  }

  lemma TakesNothing(h: string, rest: string, p: string)
    requires h != "" && h[0] == '*' && rest == (if StartsWith(h, "**") then h[2..] else h[1..])
    requires Matches(false, rest, p)
    ensures Matches(false, h, p)
  {
    assert p[..0] == "" && p[0..] == p;
  }

  /** A shortest terminator-free match. */
  lemma {:induction false} ShortestMatch(h: string, q: string) returns (m: string)
    requires Matches(false, h, q) && NoTerminator(q)
    ensures Matches(false, h, m) && NoTerminator(m)
    ensures forall x :: Matches(false, h, x) && NoTerminator(x) ==> |x| >= |m|
    decreases |q|
  {
    if x :| Matches(false, h, x) && NoTerminator(x) && |x| < |q| {
      m := ShortestMatch(h, x);
    } else {
      m := q;
    }
  }

  /** A second double star and slash demands one more slash than the law allows it to. */
  lemma DoubledPrefixNeedsSlash(h: string, p: string)
    ensures GlobAccepts(false, "**/" + ("**/" + h), p) ==>
              exists i :: 0 <= i < |p| && p[i] == '/' && Matches(false, h, p[i + 1..])
  {
    var g := "**/" + h;
    assert ("**/" + g)[3..] == g && StartsWith("**/" + g, "**/");
    if Matches(false, g, p) {
      SlashAfterRun(h, p);
    } else if GlobAccepts(false, "**/" + g, p) {
      var i :| 0 <= i < |p| && AfterSlash(false, g, p, i);
      SlashAfterRun(h, p[i + 1..]);
      var j :| 0 <= j < |p[i + 1..]| && p[i + 1..][j] == '/' && Matches(false, h, p[i + 1..][j + 1..]);
      assert p[i + 1..][j + 1..] == p[i + 1 + j + 1..];
    }
  }

  lemma SlashAfterRun(h: string, p: string)
    requires Matches(false, "**/" + h, p)
    ensures exists i :: 0 <= i < |p| && p[i] == '/' && Matches(false, h, p[i + 1..])
  {
    var g := "**/" + h;
    StartsDouble(g);
    assert g[2..] == "/" + h && ("/" + h)[1..] == h;
    var i :| 0 <= i <= |p| && AnyRun(false, p[..i]) && Matches(false, "/" + h, p[i..]);
    assert p[i..][1..] == p[i + 1..];
  }

  /** A character that is not a wildcard must occur in whatever a glob that names it matches. */
  lemma {:induction false} LiteralMustOccur(g: string, p: string, c: char)
    requires Matches(false, g, p) && c !in p && c != '*' && c != '?'
    ensures c !in g
    decreases |g|
  {
    if g == "" {
    } else if StartsWith(g, "**") {
      StartsDouble(g);
      var i :| 0 <= i <= |p| && AnyRun(false, p[..i]) && Matches(false, g[2..], p[i..]);
      LiteralMustOccur(g[2..], p[i..], c);
      assert g == [g[0], g[1]] + g[2..];
    } else if g[0] == '*' {
      var i :| 0 <= i <= |p| && NoSlash(p[..i]) && Matches(false, g[1..], p[i..]);
      LiteralMustOccur(g[1..], p[i..], c);
      assert g == [g[0]] + g[1..];
    } else {
      LiteralMustOccur(g[1..], p[1..], c);
      assert g == [g[0]] + g[1..];
    }
  }

  lemma LiteralMustOccurGlob(g: string, p: string, c: char)
    requires GlobAccepts(false, g, p) && c !in p && c != '*' && c != '?' && c != '/'
    ensures c !in g
  {
    if StartsWith(g, "**/") {
      if Matches(false, g[3..], p) {
        LiteralMustOccur(g[3..], p, c);
      } else {
        var i :| 0 <= i < |p| && AfterSlash(false, g[3..], p, i);
        LiteralMustOccur(g[3..], p[i + 1..], c);
      }
      assert g == "**/" + g[3..];
    } else {
      LiteralMustOccur(g, p, c);
    }
  }

  lemma TerminatorMustMatchGlob(g: string, p: string)
    requires GlobAccepts(false, g, p) && NoTerminator(p)
    ensures NoTerminator(g)
  {
    forall k | 0 <= k < |g|
      ensures !LineTerminator(g[k])
    {
      if LineTerminator(g[k]) {
        LiteralMustOccurGlob(g, p, g[k]);
      }
    }
  }

  /** The law holds of a glob, on all paths without line terminators, exactly when the glob does not
      itself start with a double star and a slash (or names a line terminator, and so matches no such
      path at all). */
  lemma PrefixLawIff(g: string)
    ensures (forall p :: NoTerminator(p) ==> PrefixLaw(g, p)) <==> !StartsWith(g, "**/") || !NoTerminator(g)
  {
    if !StartsWith(g, "**/") {
      forall p | NoTerminator(p)
        ensures PrefixLaw(g, p)
      {
        PrefixLawHolds(g, p);
      }
    } else if !NoTerminator(g) {
      forall p | NoTerminator(p)
        ensures PrefixLaw(g, p)
      {
        NothingMatches(g, p);
      }
    } else {
      var p := PrefixLawFails(g);
    }
  }

  lemma NothingMatches(g: string, p: string)
    requires !NoTerminator(g) && NoTerminator(p)
    ensures PrefixLaw(g, p)
  {
    PlainMeaning(g, p);
    PlainMeaning("**/" + g, p);
    var k :| 0 <= k < |g| && LineTerminator(g[k]);
    assert ("**/" + g)[k + 3] == g[k];
    if GlobAccepts(false, g, p) {
      TerminatorMustMatchGlob(g, p);
    }
    if GlobAccepts(false, "**/" + g, p) {
      TerminatorMustMatchGlob("**/" + g, p);
    }
    forall i | 0 <= i < |p|
      ensures !SuffixAccepted(g, p, i)
    {
      PlainMeaning(g, p[i + 1..]);
      if GlobAccepts(false, g, p[i + 1..]) {
        TerminatorMustMatchGlob(g, p[i + 1..]);
      }
    }
  }

  lemma PrefixLawFails(g: string) returns (p: string)
    requires StartsWith(g, "**/") && NoTerminator(g)
    ensures NoTerminator(p) && !PrefixLaw(g, p)
  {
    var h := g[3..];
    assert g == "**/" + h;
    assert NoTerminator(h) by {
      assert forall k :: 0 <= k < |h| ==> h[k] == g[k + 3];
    }
    InstanceMatches(h);
    p := ShortestMatch(h, Instance(h));
    PlainMeaning(g, p);
    PlainMeaning("**/" + g, p);
    ShortestIsNotDoubled(h, p);
  }

  lemma ShortestIsNotDoubled(h: string, p: string)
    requires NoTerminator(p) && forall x :: Matches(false, h, x) && NoTerminator(x) ==> |x| >= |p|
    ensures !GlobAccepts(false, "**/" + ("**/" + h), p)
  {
    DoubledPrefixNeedsSlash(h, p);
    forall i | 0 <= i < |p|
      ensures !(p[i] == '/' && Matches(false, h, p[i + 1..]))
    {
      assert NoTerminator(p[i + 1..]) && |p[i + 1..]| < |p|;
    }
  }

  // ----- paths -----

  function Slashes(p: string): string {
    seq(|p|, i requires 0 <= i < |p| => if p[i] == '\\' then '/' else p[i])
  }

  function NormalizePath(p: string): string {
    var out := Slashes(p);
    if StartsWith(out, "./") then out[2..] else out
  }

  function LastSlash(p: string): (i: int)
    ensures -1 <= i < |p|
    ensures i >= 0 ==> p[i] == '/'
    ensures forall k :: i < k < |p| ==> p[k] != '/'
  {
    if p == "" then -1
    else if p[|p| - 1] == '/' then |p| - 1
    else LastSlash(p[..|p| - 1])
  }

  function Basename(p: string): string {
    p[LastSlash(p) + 1..]
  }

  /** The rule applied to a normalised path. */
  predicate MatchesPath(path: string, pattern: string) {
    Test(Compile(pattern), path) || (NoSlash(pattern) && Test(Compile(pattern), Basename(path)))
  }

  predicate MatchesGlob(path: string, pattern: string) {
    MatchesPath(NormalizePath(path), pattern)
  }

  method FirstMatch(path: string, patterns: seq<string>) returns (r: Option<string>)
    ensures IsFirst(pattern => MatchesGlob(path, pattern), patterns, r)
  {
    r := FirstWhere(pattern => MatchesGlob(path, pattern), patterns);
  }

  /** The first element that satisfies the test, if any does. */
  ghost predicate IsFirst(test: string -> bool, xs: seq<string>, r: Option<string>) {
    match r
    case None => forall k :: 0 <= k < |xs| ==> !test(xs[k])
    case Some(x) => exists i :: 0 <= i < |xs| && xs[i] == x && test(x) && forall k :: 0 <= k < i ==> !test(xs[k])
  }

  method FirstWhere(test: string -> bool, xs: seq<string>) returns (r: Option<string>)
    ensures IsFirst(test, xs, r)
  {
    for i := 0 to |xs|
      invariant forall k :: 0 <= k < i ==> !test(xs[k])
    {
      if test(xs[i]) {
        return Some(xs[i]);
      }
    }
    return None;
  }

  // ----- the documented full-path rule -----

  /** The documentation's reading: globs with a slash or a double star match the full path only. */
  predicate DocumentedMatch(path: string, pattern: string) {
    Test(Compile(pattern), path) ||
    (NoSlash(pattern) && !HasDoubleStar(pattern) && Test(Compile(pattern), Basename(path)))
  }

  predicate HasDoubleStar(g: string) {
    exists k :: 0 <= k < |g| - 1 && g[k] == '*' && g[k + 1] == '*'
  }

  /** The code applies the base-name rule to globs such as `a**` as well: it follows the documented rule
      on all paths without line terminators exactly for the globs that hold a slash, hold no double star,
      start with one, or name a line terminator or a backslash, which no such path holds once it is
      normalised. */
  lemma FullPathRuleIff(g: string)
    ensures (forall path ::
               NoTerminator(path) ==> (MatchesGlob(path, g) <==> DocumentedMatch(NormalizePath(path), g))) <==>
            !NoSlash(g) || !HasDoubleStar(g) || StartsWith(g, "**") || !NoTerminator(g) || '\\' in g
  {
    if NoSlash(g) && HasDoubleStar(g) {
      if StartsWith(g, "**") || !NoTerminator(g) || '\\' in g {
        forall path | NoTerminator(path)
          ensures MatchesGlob(path, g) <==> DocumentedMatch(NormalizePath(path), g)
        {
          RuleHolds(path, g);
        }
      } else {
        RuleFails(g);
      }
    }
  }

  /** A normalised path holds no backslash, and no line terminator it did not hold before. */
  lemma NormalIsPlain(path: string)
    ensures '\\' !in NormalizePath(path)
    ensures NoTerminator(path) ==> NoTerminator(NormalizePath(path))
  {
    var out := Slashes(path);
    assert forall k :: 0 <= k < |out| ==> out[k] == if path[k] == '\\' then '/' else path[k];
  }

  lemma RuleHolds(path: string, g: string)
    requires NoTerminator(path) && NoSlash(g)
    requires StartsWith(g, "**") || !NoTerminator(g) || '\\' in g
    ensures MatchesGlob(path, g) <==> DocumentedMatch(NormalizePath(path), g)
  {
    var normal := NormalizePath(path);
    NormalIsPlain(path);
    if StartsWith(g, "**") {
      LeadingDoubleStarAbsorbs(g, normal);
    } else if !NoTerminator(g) {
      NamesTerminator(g, Basename(normal));
    } else {
      NamesBackslash(g, Basename(normal));
    }
  }

  lemma NamesBackslash(g: string, p: string)
    requires '\\' in g && '\\' !in p && NoTerminator(p)
    ensures !Test(Compile(g), p)
  {
    PlainMeaning(g, p);
    if GlobAccepts(false, g, p) {
      LiteralMustOccurGlob(g, p, '\\');
    }
  }

  lemma InstanceAccepted(g: string)
    requires NoTerminator(g) && !StartsWith(g, "**/")
    ensures Test(Compile(g), Instance(g)) && NoTerminator(Instance(g))
  {
    InstanceMatches(g);
    PlainMeaning(g, Instance(g));
  }

  lemma RootRejected(g: string, q: string)
    requires NoSlash(g) && NoSlash(q) && NoTerminator(q) && g != "" && g != "*" && !StartsWith(g, "**")
    ensures !Test(Compile(g), "/" + q)
  {
    PlainMeaning(g, "/" + q);
    NotStartingWithSlash(g, q);
  }

  lemma TellsApart(path: string, g: string)
    requires NoSlash(g) && HasDoubleStar(g) && NormalizePath(path) == path
    requires Test(Compile(g), Basename(path)) && !Test(Compile(g), path)
    ensures MatchesGlob(path, g) && !DocumentedMatch(NormalizePath(path), g)
  {
  }

  /** A path that starts with a slash and holds no backslash is normal. */
  lemma RootedIsNormal(q: string)
    requires '\\' !in q
    ensures NormalizePath("/" + q) == "/" + q
  {
    var path := "/" + q;
    assert forall k :: 0 < k < |path| ==> path[k] == q[k - 1];
    assert Slashes(path) == path;
    assert path[0] == '/' && (|path| >= 2 ==> path[..2][0] == path[0]);
  }

  lemma {:induction false} InstanceNames(h: string, c: char)
    requires c in Instance(h) && c != 'a'
    ensures c in h
  {
    if h[0] == '*' {
      InstanceNames(h[1..], c);
    } else if c in Instance(h[1..]) {
      InstanceNames(h[1..], c);
    }
    assert h == [h[0]] + h[1..];
  }

  lemma DoubleMeansTwo(g: string)
    requires HasDoubleStar(g) && !StartsWith(g, "**")
    ensures g != "" && g != "*" && !StartsWith(g, "**/")
  {
    assert |g| >= 3 ==> g[..3][..2] == g[..2];
  }

  /** A path on which the code departs from the documented rule: an instance of the glob, at the root. */
  lemma RuleFails(g: string)
    requires NoSlash(g) && HasDoubleStar(g) && !StartsWith(g, "**") && NoTerminator(g) && '\\' !in g
    ensures var path := "/" + Instance(g);
            NoTerminator(path) && MatchesGlob(path, g) && !DocumentedMatch(NormalizePath(path), g)
  {
    var q := Instance(g);
    DoubleMeansTwo(g);
    InstanceAccepted(g);
    InstanceMatches(g);
    BasenameAfterSlash(q);
    RootRejected(g, q);
    if '\\' in q {
      InstanceNames(g, '\\');
    }
    RootedIsNormal(q);
    TellsApart("/" + q, g);
    assert forall k :: 0 < k < |"/" + q| ==> ("/" + q)[k] == q[k - 1];
  }

  lemma LeadingDoubleStarAbsorbs(g: string, path: string)
    requires StartsWith(g, "**") && NoSlash(g) && NoTerminator(path)
    ensures Test(Compile(g), Basename(path)) ==> Test(Compile(g), path)
  {
    var k := LastSlash(path) + 1;
    var base := Basename(path);
    PlainMeaning(g, base);
    PlainMeaning(g, path);
    StartsDouble(g);
    assert !StartsWith(g, "**/") by {
      assert |g| >= 3 ==> g[2] != '/' && g[..3][2] == g[2];
    }
    if i :| 0 <= i <= |base| && Matches(false, g[2..], base[i..]) {
      assert path[k + i..] == base[i..];
    }
  }

  lemma NamesTerminator(g: string, p: string)
    requires !NoTerminator(g) && NoTerminator(p)
    ensures !Test(Compile(g), p)
  {
    PlainMeaning(g, p);
    if GlobAccepts(false, g, p) {
      TerminatorMustMatchGlob(g, p);
    }
  }

  lemma BasenameAfterSlash(q: string)
    requires NoSlash(q)
    ensures Basename("/" + q) == q
  {
    var p := "/" + q;
    var i := LastSlash(p);
    assert p[0] == '/';
    assert forall k :: 0 < k < |p| ==> p[k] == q[k - 1];
  }

  lemma NotStartingWithSlash(g: string, q: string)
    requires NoSlash(g) && g != "" && g != "*" && !StartsWith(g, "**")
    ensures !GlobAccepts(false, g, "/" + q)
  {
    var p := "/" + q;
    assert !StartsWith(g, "**/") by {
      assert |g| >= 3 ==> g[..2] == g[..3][..2];
    }
    if g[0] == '*' {
      StartsDouble(g);
      assert g[1] != '*' && !StartsWith(g[1..], "**") by {
        StartsDouble(g[1..]);
      }
      forall i | 0 < i <= |p|
        ensures !NoSlash(p[..i])
      {
        assert p[..i][0] == '/';
      }
      assert p[0..] == p;
      assert !Matches(false, g[1..], p);
    }
  }
}
