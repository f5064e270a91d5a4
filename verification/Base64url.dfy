/** Unpadded base64url (RFC 4648, section 5) as the token code computes it. */
module Base64url {
  import opened Wrappers

  type byte = x: int | 0 <= x < 256

  type sextet = x: int | 0 <= x < 64

  // ---------------------------------------------------------------------
  // The alphabet
  // ---------------------------------------------------------------------

  /** The character of the standard alphabet (RFC 4648, section 4). */
  function CharOf(x: sextet): char {
    if x < 26 then ('A' as int + x) as char
    else if x < 52 then ('a' as int + (x - 26)) as char
    else if x < 62 then ('0' as int + (x - 52)) as char
    else if x == 62 then '+'
    else '/'
  }

  /** The value of a character; what is not in the alphabet is skipped by the decoder. */
  function ValueOf(c: char): Option<sextet> {
    if 'A' <= c <= 'Z' then Some(c as int - 'A' as int)
    else if 'a' <= c <= 'z' then Some(c as int - 'a' as int + 26)
    else if '0' <= c <= '9' then Some(c as int - '0' as int + 52)
    else if c == '+' || c == '-' then Some(62)
    else if c == '/' || c == '_' then Some(63)
    else None
  }

  function ToUrl(c: char): char {
    if c == '+' then '-' else if c == '/' then '_' else c
  }

  function ToStandard(c: char): char {
    if c == '-' then '+' else if c == '_' then '/' else c
  }

  /** The characters an encoded string may contain: no dot, no padding. */
  predicate UrlChar(c: char) {
    'A' <= c <= 'Z' || 'a' <= c <= 'z' || '0' <= c <= '9' || c == '-' || c == '_'
  }

  lemma CharValue(x: sextet)
    ensures ValueOf(CharOf(x)) == Some(x)
    ensures ToStandard(ToUrl(CharOf(x))) == CharOf(x)
    ensures UrlChar(ToUrl(CharOf(x)))
    ensures CharOf(x) != '='
  {
  }

  // ---------------------------------------------------------------------
  // Standard base64
  // ---------------------------------------------------------------------

  /** The four sextets of three bytes. */
  function Group(a: byte, b: byte, c: byte): seq<sextet> {
    [a / 4, a % 4 * 16 + b / 16, b % 16 * 4 + c / 64, c % 64]
  }

  /** The three bytes of four sextets. */
  function Ungroup(x: sextet, y: sextet, z: sextet, w: sextet): seq<byte> {
    [x as int * 4 + y / 16, y as int % 16 * 16 + z / 4, z as int % 4 * 64 + w]
  }

  /** Three bytes become four sextets; one or two left over become two or three. */
  function Digits(bytes: seq<byte>): seq<sextet> {
    if |bytes| == 0 then []
    else if |bytes| == 1 then Group(bytes[0], 0, 0)[..2]
    else if |bytes| == 2 then Group(bytes[0], bytes[1], 0)[..3]
    else Group(bytes[0], bytes[1], bytes[2]) + Digits(bytes[3..])
  }

  function Bytes(digits: seq<sextet>): seq<byte> {
    if |digits| < 2 then []
    else if |digits| == 2 then Ungroup(digits[0], digits[1], 0, 0)[..1]
    else if |digits| == 3 then Ungroup(digits[0], digits[1], digits[2], 0)[..2]
    else Ungroup(digits[0], digits[1], digits[2], digits[3]) + Bytes(digits[4..])
  }

  function Chars(digits: seq<sextet>): string {
    if digits == [] then "" else Chars(digits[..|digits| - 1]) + [CharOf(digits[|digits| - 1])]
  }

  function Values(s: string): seq<sextet> {
    if s == "" then []
    else
      var front, value := Values(s[..|s| - 1]), ValueOf(s[|s| - 1]);
      if value.Some? then front + [value.value] else front
  }

  /** `'='.repeat(count)`. */
  function Pads(count: nat): string {
    if count == 0 then "" else Pads(count - 1) + "="
  }

  /** How many padding characters bring a length up to a multiple of four. */
  function PadCount(length: nat): nat {
    if length % 4 == 0 then 0 else 4 - length % 4
  }

  /** `buf.toString('base64')`. */
  function Base64(bytes: seq<byte>): string {
    Chars(Digits(bytes)) + Pads(PadCount(|Digits(bytes)|))
  }

  /** `Buffer.from(s, 'base64')`. */
  function Unbase64(s: string): seq<byte> {
    Bytes(Values(s))
  }

  // ---------------------------------------------------------------------
  // The URL variant
  // ---------------------------------------------------------------------

  function MapToUrl(s: string): string {
    if s == "" then "" else MapToUrl(s[..|s| - 1]) + [ToUrl(s[|s| - 1])]
  }

  function MapToStandard(s: string): string {
    if s == "" then "" else MapToStandard(s[..|s| - 1]) + [ToStandard(s[|s| - 1])]
  }

  /** `replace(/=+$/, '')`. */
  function StripPadding(s: string): string {
    if s != "" && s[|s| - 1] == '=' then StripPadding(s[..|s| - 1]) else s
  }

  function Encode(bytes: seq<byte>): string {
    StripPadding(MapToUrl(Base64(bytes)))
  }

  /** The standard form of an unpadded string: the padding is recomputed from the length. */
  function Restore(s: string): string {
    MapToStandard(s) + Pads(PadCount(|s|))
  }

  function Decode(s: string): seq<byte> {
    Unbase64(Restore(s))
  }

  // ---------------------------------------------------------------------
  // Round trip
  // ---------------------------------------------------------------------

  lemma GroupRoundTrip(a: byte, b: byte, c: byte)
    ensures var g := Group(a, b, c);
            Ungroup(g[0], g[1], g[2], g[3]) == [a, b, c]
  {
  }

  lemma FirstGroup(g: seq<sextet>, rest: seq<sextet>)
    requires |g| == 4
    ensures Bytes(g + rest) == Ungroup(g[0], g[1], g[2], g[3]) + Bytes(rest)
  {
    assert (g + rest)[4..] == rest;
  }

  /** One or two bytes left over, padded with zero bits. */
  lemma LeftoverRoundTrip(a: byte, b: byte)
    ensures Bytes(Group(a, 0, 0)[..2]) == [a] && Bytes(Group(a, b, 0)[..3]) == [a, b]
  {
    GroupRoundTrip(a, 0, 0);
    GroupRoundTrip(a, b, 0);
  }

  lemma {:induction false} BytesOfDigits(bytes: seq<byte>)
    ensures Bytes(Digits(bytes)) == bytes
  {
    if |bytes| >= 3 {
      var a, b, c := bytes[0], bytes[1], bytes[2];
      BytesOfDigits(bytes[3..]);
      FirstGroup(Group(a, b, c), Digits(bytes[3..]));
      GroupRoundTrip(a, b, c);
      assert bytes == [a, b, c] + bytes[3..];
    } else if |bytes| == 2 {
      LeftoverRoundTrip(bytes[0], bytes[1]);
    } else if |bytes| == 1 {
      LeftoverRoundTrip(bytes[0], 0);
    }
  }

  lemma ValuesSnoc(s: string, x: sextet)
    ensures Values(s + [CharOf(x)]) == Values(s) + [x]
  {
    assert (s + [CharOf(x)])[..|s|] == s;
    CharValue(x);
  }

  lemma {:induction false} ValuesOfChars(digits: seq<sextet>)
    ensures Values(Chars(digits)) == digits && |Chars(digits)| == |digits|
  {
    if digits != [] {
      var n := |digits| - 1;
      ValuesOfChars(digits[..n]);
      ValuesSnoc(Chars(digits[..n]), digits[n]);
    }
  }

  lemma {:induction false} ValuesSkipPads(s: string, count: nat)
    ensures Values(s + Pads(count)) == Values(s)
  {
    if count == 0 {
      assert s + "" == s;
    } else {
      PadSnoc(s, count);
      assert (s + Pads(count - 1) + ['='])[..|s + Pads(count - 1)|] == s + Pads(count - 1);
      ValuesSkipPads(s, count - 1);
    }
  }

  lemma {:induction false} UrlCharsOnly(digits: seq<sextet>)
    ensures var url := MapToUrl(Chars(digits));
            |url| == |digits| && MapToStandard(url) == Chars(digits) &&
            forall k :: 0 <= k < |url| ==> UrlChar(url[k])
  {
    if digits != [] {
      var n := |digits| - 1;
      ValuesOfChars(digits);
      ValuesOfChars(digits[..n]);
      UrlCharsOnly(digits[..n]);
      CharValue(digits[n]);
      assert Chars(digits)[..n] == Chars(digits[..n]);
      var url := MapToUrl(Chars(digits));
      assert url[..n] == MapToUrl(Chars(digits[..n]));
      assert forall k :: 0 <= k < n ==> url[k] == url[..n][k];
    }
  }

  lemma MapSnoc(s: string, c: char)
    ensures MapToUrl(s + [c]) == MapToUrl(s) + [ToUrl(c)]
  {
    assert (s + [c])[..|s|] == s;
  }

  lemma PadSnoc(s: string, count: nat)
    requires count > 0
    ensures s + Pads(count) == s + Pads(count - 1) + ['=']
  {
  }

  lemma {:induction false} MapKeepsPads(s: string, count: nat)
    ensures MapToUrl(s + Pads(count)) == MapToUrl(s) + Pads(count)
  {
    if count == 0 {
      assert s + "" == s && MapToUrl(s) + "" == MapToUrl(s);
    } else {
      MapKeepsPads(s, count - 1);
      PadSnoc(s, count);
      PadSnoc(MapToUrl(s), count);
      MapSnoc(s + Pads(count - 1), '=');
    }
  }

  lemma {:induction false} StripDropsPads(s: string, count: nat)
    requires s == "" || s[|s| - 1] != '='
    ensures StripPadding(s + Pads(count)) == s
  {
    if count == 0 {
      assert s + "" == s;
    } else {
      PadSnoc(s, count);
      assert (s + Pads(count - 1) + ['='])[..|s + Pads(count - 1)|] == s + Pads(count - 1);
      StripDropsPads(s, count - 1);
    }
  }

  /** What is left after stripping: one URL-safe character per sextet. */
  lemma EncodeIsPlain(bytes: seq<byte>)
    ensures Encode(bytes) == MapToUrl(Chars(Digits(bytes)))
  {
    var digits := Digits(bytes);
    var url := MapToUrl(Chars(digits));
    UrlCharsOnly(digits);
    MapKeepsPads(Chars(digits), PadCount(|digits|));
    assert url == "" || UrlChar(url[|url| - 1]);
    StripDropsPads(url, PadCount(|digits|));
  }

  lemma PlainRestores(digits: seq<sextet>)
    ensures Restore(MapToUrl(Chars(digits))) == Chars(digits) + Pads(PadCount(|digits|))
  {
    UrlCharsOnly(digits);
  }

  /** Recomputing the padding from the length undoes stripping it, for every byte string. */
  lemma RestoreUndoesStrip(bytes: seq<byte>)
    ensures Restore(Encode(bytes)) == Base64(bytes)
  {
    EncodeIsPlain(bytes);
    PlainRestores(Digits(bytes));
  }

  /** Decoding undoes encoding, for every byte string. */
  lemma RoundTrip(bytes: seq<byte>)
    ensures Decode(Encode(bytes)) == bytes
  {
    RestoreUndoesStrip(bytes);
    ValuesSkipPads(Chars(Digits(bytes)), PadCount(|Digits(bytes)|));
    ValuesOfChars(Digits(bytes));
    BytesOfDigits(bytes);
  }

  /** An encoded string is made of the URL-safe alphabet alone; in particular it holds no dot. */
  lemma OnlyUrlChars(bytes: seq<byte>)
    ensures forall k :: 0 <= k < |Encode(bytes)| ==> UrlChar(Encode(bytes)[k])
    ensures '.' !in Encode(bytes) && '=' !in Encode(bytes)
  {
    EncodeIsPlain(bytes);
    UrlCharsOnly(Digits(bytes));
  }
}
