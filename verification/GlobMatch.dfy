/** The glob compiler: the text it emits, read back as a regular expression, accepts exactly what the
    glob means. A `char` stands for one UTF-16 code unit. */
module GlobMatch {
  import opened Wrappers
  import opened Regex

  // ----- what a glob means -----

  /** `*` takes any characters but slashes, `**` any characters (`strict`: none that is a line
      terminator), `?` one character but a slash, everything else itself. */
  ghost predicate Matches(strict: bool, g: string, p: string)
    decreases |g|
  {
    if g == "" then p == ""
    else if StartsWith(g, "**") then
      exists i :: 0 <= i <= |p| && AnyRun(strict, p[..i]) && Matches(strict, g[2..], p[i..])
    else if g[0] == '*' then exists i :: 0 <= i <= |p| && NoSlash(p[..i]) && Matches(strict, g[1..], p[i..])
    else p != "" && (if g[0] == '?' then p[0] != '/' else p[0] == g[0]) && Matches(strict, g[1..], p[1..])
  }

  predicate NoSlash(s: string) {
    forall k :: 0 <= k < |s| ==> s[k] != '/'
  }

  predicate NoTerminator(s: string) {
    forall k :: 0 <= k < |s| ==> !LineTerminator(s[k])
  }

  predicate AnyRun(strict: bool, s: string) {
    strict ==> NoTerminator(s)
  }

  /** The rest of the glob matches what follows the slash at position `i`. */
  ghost predicate AfterSlash(strict: bool, g: string, p: string, i: nat)
    requires i < |p|
  {
    p[i] == '/' && AnyRun(strict, p[..i]) && Matches(strict, g, p[i + 1..])
  }

  /** A leading double star and slash stands for zero or more whole path segments. */
  ghost predicate GlobAccepts(strict: bool, g: string, p: string) {
    if StartsWith(g, "**/")
    then Matches(strict, g[3..], p) || exists i :: 0 <= i < |p| && AfterSlash(strict, g[3..], p, i)
    else Matches(strict, g, p)
  }

  // ----- the compiler -----

  predicate NeedsEscape(c: char) {
    c in ".+^${}()|[]\\"
  }

  function EmitChar(c: char): string {
    if c == '*' then "[^/]*"
    else if c == '?' then "[^/]"
    else if NeedsEscape(c) then ['\\', c]
    else [c]
  }

  function Emit(src: string): string {
    if src == "" then ""
    else if StartsWith(src, "**") then ".*" + Emit(src[2..])
    else EmitChar(src[0]) + Emit(src[1..])
  }

  function Compile(pattern: string): string {
    if StartsWith(pattern, "**/") then "^(?:.*/)?" + Emit(pattern[3..]) + "$" else "^" + Emit(pattern) + "$"
  }

  method GlobToRegExp(pattern: string) returns (re: string)
    ensures re == Compile(pattern)
  {
    var src, prefix := pattern, "^";
    if StartsWith(src, "**/") {
      prefix, src := "^(?:.*/)?", src[3..];
    }
    var out := EmitAll(src);
    re := prefix + out + "$";
  }

  /** The translation loop. */
  method EmitAll(src: string) returns (out: string)
    ensures out == Emit(src)
  {
    out := "";
    var i := 0;
    while i < |src|
      invariant 0 <= i <= |src|
      invariant out + Emit(src[i..]) == Emit(src)
    {
      EmitStep(src, i, out);
      var c := src[i];
      if c == '*' && i + 1 < |src| && src[i + 1] == '*' {
        out := out + ".*";
        i := i + 1;
      } else if c == '*' {
        out := out + "[^/]*";
      } else if c == '?' {
        out := out + "[^/]";
      } else if NeedsEscape(c) {
        out := out + ['\\', c];
      } else {
        out := out + [c];
      }
      i := i + 1;
    }
    assert src[i..] == "";
  }

  lemma StartsDouble(s: string)
    ensures StartsWith(s, "**") <==> |s| >= 2 && s[0] == '*' && s[1] == '*'
  {
    if |s| >= 2 {
      assert s[..2] == [s[0], s[1]];
    }
  }

  lemma EmitStep(src: string, i: nat, out: string)
    requires i < |src|
    ensures if src[i] == '*' && i + 1 < |src| && src[i + 1] == '*'
            then out + Emit(src[i..]) == (out + ".*") + Emit(src[i + 2..])
            else out + Emit(src[i..]) == (out + EmitChar(src[i])) + Emit(src[i + 1..])
  {
    var rest := src[i..];
    assert rest[0] == src[i];
    if src[i] == '*' && i + 1 < |src| && src[i + 1] == '*' {
      assert rest[..2] == "**" && rest[2..] == src[i + 2..];
    } else {
      StartsDouble(rest);
      assert rest[1..] == src[i + 1..];
    }
  }

  // ----- the emitted text reads back as intended -----

  function ItemsOf(g: string): seq<Item> {
    if g == "" then []
    else if StartsWith(g, "**") then [Many(Dot)] + ItemsOf(g[2..])
    else if g[0] == '*' then [Many(NotSlash)] + ItemsOf(g[1..])
    else if g[0] == '?' then [One(NotSlash)] + ItemsOf(g[1..])
    else [One(Lit(g[0]))] + ItemsOf(g[1..])
  }

  /** What follows an item never starts with a repetition operator. */
  lemma EmitStart(g: string)
    ensures (Emit(g) + "$")[0] != '*'
  {
  }

  /** One atom followed by text that parses. */
  lemma ParseOne(s: string, a: Atom, tail: string, more: seq<Item>, end: string)
    requires s != "" && s[0] != '$' && s[0] != ')' && !StartsWith(s, "(?:")
    requires ParseAtom(s) == Some((a, tail)) && tail != "" && tail[0] != '*'
    requires ParseItems(tail) == Some((more, end))
    ensures ParseItems(s) == Some(([One(a)] + more, end))
  {
  }

  lemma ParseMany(s: string, a: Atom, tail: string, more: seq<Item>, end: string)
    requires s != "" && s[0] != '$' && s[0] != ')' && !StartsWith(s, "(?:")
    requires ParseAtom(s) == Some((a, "*" + tail))
    requires ParseItems(tail) == Some((more, end))
    ensures ParseItems(s) == Some(([Many(a)] + more, end))
  {
    assert ("*" + tail)[1..] == tail;
  }

  lemma ParseAny(tail: string, more: seq<Item>, end: string)
    requires ParseItems(tail) == Some((more, end))
    ensures ParseItems(".*" + tail) == Some(([Many(Dot)] + more, end))
  {
    var s := ".*" + tail;
    assert s[1..] == "*" + tail;
    ParseMany(s, Dot, tail, more, end);
  }

  lemma {:induction false} EmitParses(g: string)
    ensures ParseItems(Emit(g) + "$") == Some((ItemsOf(g), "$"))
  {
    if g == "" {
      assert Emit(g) + "$" == "$";
    } else if StartsWith(g, "**") {
      EmitParses(g[2..]);
      ParseAny(Emit(g[2..]) + "$", ItemsOf(g[2..]), "$");
      assert Emit(g) + "$" == ".*" + (Emit(g[2..]) + "$");
    } else {
      EmitParses(g[1..]);
      EmitStart(g[1..]);
      EmitCharItem(g[0], Emit(g[1..]) + "$", ItemsOf(g[1..]));
      assert Emit(g) + "$" == EmitChar(g[0]) + (Emit(g[1..]) + "$");
    }
  }

  lemma EmitCharItem(c: char, tail: string, more: seq<Item>)
    requires tail != "" && tail[0] != '*' && ParseItems(tail) == Some((more, "$"))
    ensures ParseItems(EmitChar(c) + tail) ==
            Some(([if c == '*' then Many(NotSlash) else if c == '?' then One(NotSlash) else One(Lit(c))] + more, "$"))
  {
    var s := EmitChar(c) + tail;
    EmitCharParses(c, tail);
    if c == '*' {
      ParseMany(s, NotSlash, tail, more, "$");
    } else {
      ParseOne(s, if c == '?' then NotSlash else Lit(c), tail, more, "$");
    }
  }

  lemma Drop(head: string, tail: string)
    ensures (head + tail)[|head|..] == tail && (head + tail)[..|head|] == head
  {
  }

  lemma EmitCharParses(c: char, tail: string)
    requires tail != "" && tail[0] != '*'
    ensures
      var s := EmitChar(c) + tail;
      && s[0] != '$' && s[0] != ')' && !StartsWith(s, "(?:")
      && if c == '*' then ParseAtom(s) == Some((NotSlash, "*" + tail))
         else if c == '?' then ParseAtom(s) == Some((NotSlash, tail))
         else ParseAtom(s) == Some((Lit(c), tail))
  {
    if c == '*' {
      Drop("[^/]", "*" + tail);
      assert "[^/]*" + tail == "[^/]" + ("*" + tail);
    } else if c == '?' {
      Drop("[^/]", tail);
    } else if NeedsEscape(c) {
      Drop(['\\', c], tail);
    } else {
      Drop([c], tail);
    }
  }

  lemma Regroup(tail: string)
    ensures "^(?:.*/)?" + tail + "$" == "^" + ("(?:.*/)?" + (tail + "$"))
  {
  }

  lemma PrefixedParses(tail: string)
    ensures ParseRegex("^(?:.*/)?" + Emit(tail) + "$") == Some([Maybe(SEGMENTS)] + ItemsOf(tail))
  {
    EmitParses(tail);
    PrefixParses(Emit(tail) + "$", ItemsOf(tail));
    Anchored("(?:.*/)?" + (Emit(tail) + "$"), [Maybe(SEGMENTS)] + ItemsOf(tail));
    Regroup(Emit(tail));
  }

  lemma BareParses(pattern: string)
    ensures ParseRegex("^" + Emit(pattern) + "$") == Some(ItemsOf(pattern))
  {
    EmitParses(pattern);
    Anchored(Emit(pattern) + "$", ItemsOf(pattern));
    assert "^" + Emit(pattern) + "$" == "^" + (Emit(pattern) + "$");
  }

  /** The emitted text is an expression of the fragment, with the intended items. */
  lemma CompileParses(pattern: string)
    ensures ParseRegex(Compile(pattern)) == Some(CompiledItems(pattern))
  {
    if StartsWith(pattern, "**/") {
      PrefixedParses(pattern[3..]);
    } else {
      BareParses(pattern);
    }
  }

  lemma Anchored(body: string, items: seq<Item>)
    requires ParseItems(body) == Some((items, "$"))
    ensures ParseRegex("^" + body) == Some(items)
  {
    assert ("^" + body)[1..] == body;
  }

  const SEGMENTS: seq<Item> := [Many(Dot), One(Lit('/'))]

  function CompiledItems(pattern: string): seq<Item> {
    if StartsWith(pattern, "**/") then [Maybe(SEGMENTS)] + ItemsOf(pattern[3..]) else ItemsOf(pattern)
  }

  lemma ParseMaybe(s: string, group: seq<Item>, close: string, more: seq<Item>, end: string)
    requires StartsWith(s, "(?:") && s[0] == '(' && ParseItems(s[3..]) == Some((group, close))
    requires StartsWith(close, ")?") && ParseItems(close[2..]) == Some((more, end))
    ensures ParseItems(s) == Some(([Maybe(group)] + more, end))
  {
  }

  lemma PrefixParses(tail: string, more: seq<Item>)
    requires ParseItems(tail) == Some((more, "$"))
    ensures ParseItems("(?:.*/)?" + tail) == Some(([Maybe(SEGMENTS)] + more, "$"))
  {
    var close := ")?" + tail;
    SegmentsParse(close);
    GroupText(tail);
    ParseMaybe("(?:.*/)?" + tail, SEGMENTS, close, more, "$");
  }

  lemma GroupText(tail: string)
    ensures var s, close := "(?:.*/)?" + tail, ")?" + tail;
            StartsWith(s, "(?:") && s[0] == '(' && s[3..] == ".*" + ("/" + close) &&
            StartsWith(close, ")?") && close[2..] == tail
  {
    assert ("(?:.*/)?" + tail)[..3] == "(?:";
    assert (")?" + tail)[..2] == ")?";
  }

  lemma SegmentsParse(close: string)
    requires close != "" && close[0] == ')'
    ensures ParseItems(".*" + ("/" + close)) == Some((SEGMENTS, close))
  {
    assert ("/" + close)[1..] == close;
    ParseOne("/" + close, Lit('/'), close, [], close);
    assert [One(Lit('/'))] + [] == [One(Lit('/'))];
    ParseAny("/" + close, [One(Lit('/'))], close);
    assert [Many(Dot)] + [One(Lit('/'))] == SEGMENTS;
  }

  // ----- the expression accepts what the glob means -----

  /** Without the leading-segment rule, for every string: the expression is the strict reading. */
  lemma {:induction false} ItemsMean(g: string, p: string)
    ensures Accepts(ItemsOf(g), p) <==> Matches(true, g, p)
    decreases |g|
  {
    if g == "" {
    } else if StartsWith(g, "**") {
      forall i | 0 <= i <= |p|
        ensures Accepts(ItemsOf(g[2..]), p[i..]) <==> Matches(true, g[2..], p[i..])
      {
        ItemsMean(g[2..], p[i..]);
      }
      DoubleStarMeans(g, p);
    } else if g[0] == '*' {
      forall i | 0 <= i <= |p|
        ensures Accepts(ItemsOf(g[1..]), p[i..]) <==> Matches(true, g[1..], p[i..])
      {
        ItemsMean(g[1..], p[i..]);
      }
      StarMeans(g, p);
    } else {
      if p != "" {
        ItemsMean(g[1..], p[1..]);
      }
      assert ItemsOf(g)[1..] == ItemsOf(g[1..]);
    }
  }

  lemma DoubleStarMeans(g: string, p: string)
    requires StartsWith(g, "**")
    requires forall i :: 0 <= i <= |p| ==> (Accepts(ItemsOf(g[2..]), p[i..]) <==> Matches(true, g[2..], p[i..]))
    ensures Accepts(ItemsOf(g), p) <==> Matches(true, g, p)
  {
    ManyTakesPrefix(Dot, ItemsOf(g[2..]), p);
    forall i | 0 <= i <= |p|
      ensures Split(Dot, ItemsOf(g[2..]), p, i) <==> AnyRun(true, p[..i]) && Matches(true, g[2..], p[i..])
    {
      assert AllOk(Dot, p[..i]) <==> NoTerminator(p[..i]);
    }
  }

  lemma StarMeans(g: string, p: string)
    requires g != "" && g[0] == '*' && !StartsWith(g, "**")
    requires forall i :: 0 <= i <= |p| ==> (Accepts(ItemsOf(g[1..]), p[i..]) <==> Matches(true, g[1..], p[i..]))
    ensures Accepts(ItemsOf(g), p) <==> Matches(true, g, p)
  {
    ManyTakesPrefix(NotSlash, ItemsOf(g[1..]), p);
    forall i | 0 <= i <= |p|
      ensures Split(NotSlash, ItemsOf(g[1..]), p, i) <==> NoSlash(p[..i]) && Matches(true, g[1..], p[i..])
    {
      assert AllOk(NotSlash, p[..i]) <==> NoSlash(p[..i]);
    }
  }

  lemma SplitAtSlash(g: string, p: string, i: nat)
    requires i <= |p|
    ensures Split(Dot, [One(Lit('/'))] + ItemsOf(g), p, i) <==> i < |p| && AfterSlash(true, g, p, i)
  {
    var rest := [One(Lit('/'))] + ItemsOf(g);
    assert AllOk(Dot, p[..i]) <==> NoTerminator(p[..i]);
    assert rest[1..] == ItemsOf(g);
    if i < |p| {
      assert p[i..][1..] == p[i + 1..];
      ItemsMean(g, p[i + 1..]);
    }
  }

  lemma SomeSplit(rest: seq<Item>, g: string, p: string)
    requires rest == [One(Lit('/'))] + ItemsOf(g)
    ensures (exists i :: 0 <= i <= |p| && Split(Dot, rest, p, i)) <==>
            exists i :: 0 <= i < |p| && AfterSlash(true, g, p, i)
  {
    if i :| 0 <= i <= |p| && Split(Dot, rest, p, i) {
      SplitAtSlash(g, p, i);
    }
    if i :| 0 <= i < |p| && AfterSlash(true, g, p, i) {
      SplitAtSlash(g, p, i);
      assert 0 <= i <= |p| && Split(Dot, rest, p, i);
    }
  }

  lemma SegmentsSplit(tail: seq<Item>)
    ensures SEGMENTS + tail == [Many(Dot)] + ([One(Lit('/'))] + tail)
  {
  }

  lemma SomeRun(rest: seq<Item>, g: string, p: string)
    requires rest == [One(Lit('/'))] + ItemsOf(g)
    ensures Accepts([Many(Dot)] + rest, p) <==> exists i :: 0 <= i < |p| && AfterSlash(true, g, p, i)
  {
    SomeSplit(rest, g, p);
    ManyTakesPrefix(Dot, rest, p);
  }

  lemma SegmentsMean(g: string, p: string)
    ensures Accepts(SEGMENTS + ItemsOf(g), p) <==> exists i :: 0 <= i < |p| && AfterSlash(true, g, p, i)
  {
    SegmentsSplit(ItemsOf(g));
    SomeRun([One(Lit('/'))] + ItemsOf(g), g, p);
  }

  /** For every pattern and every string the compiled expression accepts exactly the strict reading of
      the glob: the one in which a double star does not cross line terminators. */
  lemma CompiledMeansStrict(pattern: string, p: string)
    ensures Test(Compile(pattern), p) <==> GlobAccepts(true, pattern, p)
  {
    CompileParses(pattern);
    if StartsWith(pattern, "**/") {
      MaybeTakesGroup(SEGMENTS, ItemsOf(pattern[3..]), p);
      SegmentsMean(pattern[3..], p);
      ItemsMean(pattern[3..], p);
    } else {
      ItemsMean(pattern, p);
    }
  }

  lemma {:induction false} StrictIsPlain(g: string, p: string)
    requires NoTerminator(p)
    ensures Matches(true, g, p) <==> Matches(false, g, p)
    decreases |g|
  {
    if g == "" {
    } else if StartsWith(g, "**") {
      forall i | 0 <= i <= |p|
        ensures Matches(true, g[2..], p[i..]) <==> Matches(false, g[2..], p[i..])
      {
        StrictIsPlain(g[2..], p[i..]);
      }
    } else if g[0] == '*' {
      forall i | 0 <= i <= |p|
        ensures Matches(true, g[1..], p[i..]) <==> Matches(false, g[1..], p[i..])
      {
        StrictIsPlain(g[1..], p[i..]);
      }
    } else if p != "" {
      StrictIsPlain(g[1..], p[1..]);
    }
  }

  lemma StrictIsPlainGlob(g: string, p: string)
    requires NoTerminator(p)
    ensures GlobAccepts(true, g, p) <==> GlobAccepts(false, g, p)
  {
    StrictIsPlain(g, p);
    if StartsWith(g, "**/") {
      StrictIsPlain(g[3..], p);
      forall i | 0 <= i < |p|
        ensures AfterSlash(true, g[3..], p, i) <==> AfterSlash(false, g[3..], p, i)
      {
        StrictIsPlain(g[3..], p[i + 1..]);
      }
    }
  }

  /** The compiler preserves the meaning of all patterns on a string exactly when the string holds no
      line terminator. */
  lemma CompilerPreservesMeaningIff(p: string)
    ensures NoTerminator(p) <==> forall pattern :: Test(Compile(pattern), p) <==> GlobAccepts(false, pattern, p)
  {
    if NoTerminator(p) {
      forall pattern
        ensures Test(Compile(pattern), p) <==> GlobAccepts(false, pattern, p)
      {
        CompiledMeansStrict(pattern, p);
        StrictIsPlainGlob(pattern, p);
      }
    } else {
      DoubleStarMatches(p);
      CompiledMeansStrict("**", p);
      assert Test(Compile("**"), p) != GlobAccepts(false, "**", p);
    }
  }

  lemma DoubleStarMatches(p: string)
    ensures GlobAccepts(false, "**", p)
    ensures GlobAccepts(true, "**", p) <==> NoTerminator(p)
  {
    var g := "**";
    assert g[2..] == "" && StartsWith(g, "**") && !StartsWith(g, "**/");
    assert p[..|p|] == p && p[|p|..] == "";
    assert Matches(false, g[2..], p[|p|..]);
    forall i | 0 <= i <= |p| && Matches(true, g[2..], p[i..])
      ensures i == |p|
    {
    }
  }
}
