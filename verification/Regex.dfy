/** The fragment of ECMAScript regular expressions that the glob compiler emits: its concrete syntax,
    read back by an independent parser, and what an anchored expression accepts. */
module Regex {
  import opened Wrappers

  datatype Atom = Lit(c: char) | Dot | NotSlash

  datatype Item = One(a: Atom) | Many(a: Atom) | Maybe(group: seq<Item>)

  /** `.` matches everything but these. */
  predicate LineTerminator(c: char) {
    c == '\n' || c == '\r' || c == '\U{2028}' || c == '\U{2029}'
  }

  predicate AtomOk(a: Atom, c: char) {
    match a
    case Lit(x) => c == x
    case Dot => !LineTerminator(c)
    case NotSlash => c != '/'
  }

  function Size(items: seq<Item>): nat {
    if items == [] then 0
    else
      (match items[0]
       case Maybe(group) => 1 + Size(group)
       case _ => 1) + Size(items[1..])
  }

  lemma SizeConcat(a: seq<Item>, b: seq<Item>)
    ensures Size(a + b) == Size(a) + Size(b)
  {
    if a == [] {
      assert a + b == b;
    } else {
      assert (a + b)[1..] == a[1..] + b;
    }
  }

  /** The expression matches the whole string. */
  predicate Accepts(items: seq<Item>, s: string)
    decreases |s|, Size(items)
  {
    if items == [] then s == ""
    else
      match items[0]
      case One(a) => s != "" && AtomOk(a, s[0]) && Accepts(items[1..], s[1..])
      case Many(a) => Accepts(items[1..], s) || (s != "" && AtomOk(a, s[0]) && Accepts(items, s[1..]))
      case Maybe(group) =>
        SizeConcat(group, items[1..]);
        Accepts(items[1..], s) || Accepts(group + items[1..], s)
  }

  // ----- concrete syntax -----

  predicate SyntaxChar(c: char) {
    c in "^$\\.*+?()[]{}|"
  }

  predicate StartsWith(s: string, prefix: string) {
    |s| >= |prefix| && s[..|prefix|] == prefix
  }

  function ParseAtom(s: string): (r: Option<(Atom, string)>)
    ensures r.Some? ==> |r.value.1| < |s|
  {
    if s == "" then None
    else if s[0] == '\\' then
      if |s| >= 2 && SyntaxChar(s[1]) then Some((Lit(s[1]), s[2..])) else None
    else if s[0] == '.' then Some((Dot, s[1..]))
    else if StartsWith(s, "[^/]") then Some((NotSlash, s[4..]))
    else if SyntaxChar(s[0]) then None
    else Some((Lit(s[0]), s[1..]))
  }

  /** Reads items up to the closing parenthesis or the end anchor; `None` outside the fragment. */
  function ParseItems(s: string): (r: Option<(seq<Item>, string)>)
    ensures r.Some? ==> |r.value.1| <= |s|
    decreases |s|
  {
    if s == "" || s[0] == '$' || s[0] == ')' then Some(([], s))
    else if StartsWith(s, "(?:") then
      match ParseItems(s[3..])
      case None => None
      case Some((group, rest)) =>
        if !StartsWith(rest, ")?") then None
        else
          (match ParseItems(rest[2..])
           case None => None
           case Some((more, end)) => Some(([Maybe(group)] + more, end)))
    else
      match ParseAtom(s)
      case None => None
      case Some((a, rest)) =>
        var starred := rest != "" && rest[0] == '*';
        match ParseItems(if starred then rest[1..] else rest)
        case None => None
        case Some((more, end)) => Some(([if starred then Many(a) else One(a)] + more, end))
  }

  /** An expression of the form `^...$`. */
  function ParseRegex(src: string): Option<seq<Item>> {
    if src == "" || src[0] != '^' then None
    else
      match ParseItems(src[1..])
      case None => None
      case Some((items, end)) => if end == "$" then Some(items) else None
  }

  /** `new RegExp(src).test(s)` for an anchored source of the fragment. */
  predicate Test(src: string, s: string) {
    var items := ParseRegex(src);
    items.Some? && Accepts(items.value, s)
  }

  // ----- repetition -----

  predicate AllOk(a: Atom, s: string) {
    forall k :: 0 <= k < |s| ==> AtomOk(a, s[k])
  }

  /** `Many` takes some prefix of allowed characters. */
  ghost predicate Split(a: Atom, rest: seq<Item>, s: string, i: nat)
    requires i <= |s|
  {
    AllOk(a, s[..i]) && Accepts(rest, s[i..])
  }

  /** A split of a string, seen from the string without its first character. */
  lemma SplitShift(a: Atom, rest: seq<Item>, s: string, i: nat)
    requires 0 < i <= |s|
    ensures Split(a, rest, s, i) <==> AtomOk(a, s[0]) && Split(a, rest, s[1..], i - 1)
  {
    var tail := s[1..];
    assert tail[i - 1..] == s[i..];
    var taken, later := s[..i], tail[..i - 1];
    assert taken[0] == s[0];
    assert forall k :: 0 < k < |taken| ==> taken[k] == later[k - 1];
    assert forall k :: 0 <= k < |later| ==> later[k] == taken[k + 1];
  }

  lemma {:induction false} ManyTakesPrefix(a: Atom, rest: seq<Item>, s: string)
    ensures Accepts([Many(a)] + rest, s) <==> exists i :: 0 <= i <= |s| && Split(a, rest, s, i)
    decreases |s|
  {
    var items := [Many(a)] + rest;
    assert items[1..] == rest;
    assert s[0..] == s;
    if s != "" {
      ManyTakesPrefix(a, rest, s[1..]);
    }
    if Accepts(rest, s) {
      assert Split(a, rest, s, 0);
    } else if s != "" && AtomOk(a, s[0]) && Accepts(items, s[1..]) {
      var i :| 0 <= i <= |s[1..]| && Split(a, rest, s[1..], i);
      SplitShift(a, rest, s, i + 1);
      assert Split(a, rest, s, i + 1);
    }
    if i :| 0 <= i <= |s| && Split(a, rest, s, i) {
      if i > 0 {
        SplitShift(a, rest, s, i);
        assert Split(a, rest, s[1..], i - 1);
      }
    }
  }

  lemma MaybeTakesGroup(group: seq<Item>, rest: seq<Item>, s: string)
    ensures Accepts([Maybe(group)] + rest, s) <==> Accepts(rest, s) || Accepts(group + rest, s)
  {
    assert ([Maybe(group)] + rest)[1..] == rest;
  }
}
