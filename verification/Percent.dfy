/** Percent-encoding of path segments, section 2.1 of RFC 3986. A string is its bytes. */
module Percent {
  import opened Lists
  import opened Options

  function HexValue(c: char): Option<nat> {
    if '0' <= c <= '9' then Some((c - '0') as nat)
    else if 'a' <= c <= 'f' then Some((c - 'a') as nat + 10)
    else if 'A' <= c <= 'F' then Some((c - 'A') as nat + 10)
    else None
  }

  /** The byte written by the three characters at the front of `s`, if they write one. */
  function Octet(s: string): Option<char> {
    if |s| < 3 || HexValue(s[1]).None? || HexValue(s[2]).None? then None
    else Some((16 * HexValue(s[1]).value + HexValue(s[2]).value) as char)
  }

  /** Decoding; none when a '%' is not followed by two hexadecimal digits. */
  function PathUnescape(s: string): Option<string> {
    if s == "" then Some("")
    else if s[0] != '%' then
      var rest := PathUnescape(s[1..]);
      if rest.None? then None else Some([s[0]] + rest.value)
    else if Octet(s).None? then None
    else
      var rest := PathUnescape(s[3..]);
      if rest.None? then None else Some([Octet(s).value] + rest.value)
  }

  /** What a resolver reads: the decoded text, or the text as written when it does not decode. */
  function Decoded(s: string): string {
    var d := PathUnescape(s);
    if d.Some? then d.value else s
  }

  function EscapeChar(c: char): string {
    if c == '%' then "%25" else if c == ' ' then "%20" else if c == '\t' then "%09"
    else if c == '(' then "%28" else if c == ')' then "%29"
    else if c == '<' then "%3C" else if c == '>' then "%3E" else [c]
  }

  function Escape(s: string): string {
    if s == "" then "" else EscapeChar(s[0]) + Escape(s[1..])
  }

  predicate NeedsEscape(c: char) { c in "% \t()<>" }

  function Behind(s: string, rest: Option<string>): Option<string> {
    if rest.None? then None else Some(s + rest.value)
  }

  lemma EscapedCharDecodes(c: char, rest: string)
    ensures PathUnescape(EscapeChar(c) + rest) == Behind([c], PathUnescape(rest))
  {
    var s := EscapeChar(c) + rest;
    if NeedsEscape(c) {
      assert s[3..] == rest;
      assert Octet(s) == Some(c);
    } else {
      assert s[1..] == rest;
    }
  }

  lemma EscapeFront(c: char, s: string, rest: string)
    ensures Escape([c] + s) + rest == EscapeChar(c) + (Escape(s) + rest)
  {
    assert ([c] + s)[1..] == s;
  }

  lemma BehindBoth(a: string, b: string, rest: Option<string>)
    ensures Behind(a, Behind(b, rest)) == Behind(a + b, rest)
  {
    if rest.Some? { assert a + (b + rest.value) == a + b + rest.value; }
  }

  /** Decoding gives back exactly what was escaped, whatever stands behind it. */
  lemma {:induction false} UnescapeEscape(s: string, rest: string)
    ensures PathUnescape(Escape(s) + rest) == Behind(s, PathUnescape(rest))
  {
    if s == "" {
      assert Escape(s) + rest == rest && Behind("", PathUnescape(rest)) == PathUnescape(rest) by {
        if PathUnescape(rest).Some? { assert "" + PathUnescape(rest).value == PathUnescape(rest).value; }
      }
    } else {
      var c, tail := s[0], s[1..];
      UnescapeEscape(tail, rest);
      EscapedCharDecodes(c, Escape(tail) + rest);
      EscapeFront(c, tail, rest);
      BehindBoth([c], tail, PathUnescape(rest));
      assert s == [c] + tail;
    }
  }

  lemma {:induction false} EscapeConcat(a: string, b: string)
    ensures Escape(a + b) == Escape(a) + Escape(b)
  {
    if a == "" {
      assert a + b == b;
    } else {
      FrontOfBoth(a, b);
      EscapeConcat(a[1..], b);
    }
  }

  /** Escaping changes a text exactly when it holds a character that needs it. */
  lemma {:induction false} EscapeFixes(s: string)
    ensures Escape(s) == s <==> forall c | c in s :: !NeedsEscape(c)
    ensures |Escape(s)| >= |s|
    ensures |Escape(s)| == |s| ==> forall c | c in s :: !NeedsEscape(c)
  {
    if s != "" {
      EscapeFixes(s[1..]);
      assert s == [s[0]] + s[1..];
      if NeedsEscape(s[0]) {
        assert |EscapeChar(s[0])| == 3;
        assert s[0] in s;
      } else {
        assert EscapeChar(s[0]) == [s[0]];
        assert (forall c | c in s :: !NeedsEscape(c)) <==> forall c | c in s[1..] :: !NeedsEscape(c);
        assert Escape(s)[1..] == Escape(s[1..]);
      }
    }
  }

  /** Escaping neither adds nor removes a slash, a '?' or a '#'. */
  lemma {:induction false} EscapeKeeps(s: string, c: char)
    requires c == '/' || c == '?' || c == '#'
    ensures c in Escape(s) <==> c in s
  {
    if s != "" {
      EscapeKeeps(s[1..], c);
      assert s == [s[0]] + s[1..];
      assert c in EscapeChar(s[0]) <==> c == s[0];
    }
  }

  /** A text without '%' reads as itself. */
  lemma {:induction false} PlainDecodes(s: string)
    requires '%' !in s
    ensures PathUnescape(s) == Some(s)
  {
    if s != "" {
      assert s[0] in s && forall c | c in s[1..] :: c in s;
      PlainDecodes(s[1..]);
      assert [s[0]] + s[1..] == s;
    }
  }
}
