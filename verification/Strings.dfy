/** Splitting and joining, as the string library of the source does it. */
module Strings {
  predicate Lacks(s: string, c: char) { c !in s }

  /** The pieces of `s` between the occurrences of `c`; there is always at least one. */
  function Split(s: string, c: char): (r: seq<string>)
    ensures r != []
  {
    if s == "" then [""]
    else
      var rest := Split(s[1..], c);
      if s[0] == c then [""] + rest else [[s[0]] + rest[0]] + rest[1..]
  }

  function Join(pieces: seq<string>, c: char): string {
    if pieces == [] then "" else if |pieces| == 1 then pieces[0] else pieces[0] + [c] + Join(pieces[1..], c)
  }

  function NonEmpty(pieces: seq<string>): (r: seq<string>)
    ensures forall p | p in r :: p != "" && p in pieces
  {
    if pieces == [] then []
    else if pieces[0] == "" then NonEmpty(pieces[1..])
    else [pieces[0]] + NonEmpty(pieces[1..])
  }

  /** A text without the newlines at its end. */
  function TrimNewlines(s: string): (r: string)
    ensures r == "" || r[|r| - 1] != '\n'
    ensures s == "" || s[|s| - 1] != '\n' ==> r == s
  {
    if s != "" && s[|s| - 1] == '\n' then TrimNewlines(s[..|s| - 1]) else s
  }

  lemma {:induction false} SplitFirst(a: string, b: string, c: char)
    requires Lacks(a, c)
    ensures Split(a + [c] + b, c) == [a] + Split(b, c)
  {
    if a == "" {
      assert ([c] + b)[1..] == b;
      assert a + [c] + b == [c] + b;
    } else {
      assert (a + [c] + b)[1..] == a[1..] + [c] + b && a[0] in a;
      SplitFirst(a[1..], b, c);
      assert [a[0]] + a[1..] == a;
    }
  }

  lemma {:induction false} SplitNone(a: string, c: char)
    requires Lacks(a, c)
    ensures Split(a, c) == [a]
  {
    if a != "" {
      SplitNone(a[1..], c);
      assert a[0] in a && [a[0]] + a[1..] == a;
    }
  }

  lemma {:induction false} NonEmptyKeepsAll(pieces: seq<string>)
    requires forall p | p in pieces :: p != ""
    ensures NonEmpty(pieces) == pieces
  {
    if pieces != [] {
      assert pieces[0] in pieces && forall p | p in pieces[1..] :: p in pieces;
      NonEmptyKeepsAll(pieces[1..]);
    }
  }

  /** Splitting what was joined gives the pieces back. */
  lemma {:induction false} SplitJoin(pieces: seq<string>, c: char)
    requires pieces != [] && forall p | p in pieces :: Lacks(p, c)
    ensures Split(Join(pieces, c), c) == pieces
  {
    if |pieces| == 1 {
      SplitNone(pieces[0], c);
    } else {
      SplitJoin(pieces[1..], c);
      SplitFirst(pieces[0], Join(pieces[1..], c), c);
    }
  }

  lemma SplitStep(x: char, s: string, c: char)
    ensures Split([x] + s, c)
         == if x == c then [""] + Split(s, c) else [[x] + Split(s, c)[0]] + Split(s, c)[1..]
  {
    assert ([x] + s)[1..] == s;
  }

  /** Splitting around a separator splits both sides. */
  lemma {:induction false} SplitAround(a: string, b: string, c: char)
    ensures Split(a + [c] + b, c) == Split(a, c) + Split(b, c)
  {
    if a == "" {
      SplitStep(c, b, c);
      assert a + [c] + b == [c] + b;
    } else {
      var rest := a[1..] + [c] + b;
      SplitAround(a[1..], b, c);
      SplitStep(a[0], rest, c);
      SplitStep(a[0], a[1..], c);
      assert a == [a[0]] + a[1..];
      assert a + [c] + b == [a[0]] + rest;
      FirstPieceGrows([a[0]], Split(a[1..], c), Split(b, c));
    }
  }

  lemma FirstPieceGrows(x: string, p: seq<string>, q: seq<string>)
    requires p != []
    ensures [x + (p + q)[0]] + (p + q)[1..] == [x + p[0]] + p[1..] + q
    ensures [""] + (p + q) == [""] + p + q
  {
  }

  /** No piece holds the separator. */
  lemma {:induction false} SplitLacks(s: string, c: char)
    ensures forall p | p in Split(s, c) :: c !in p
  {
    if s != "" { SplitLacks(s[1..], c); }
  }

  /** Joining what was split gives the text back. */
  lemma {:induction false} JoinSplit(s: string, c: char)
    ensures Join(Split(s, c), c) == s
  {
    if s != "" {
      var rest := Split(s[1..], c);
      JoinSplit(s[1..], c);
      if s[0] == c {
        assert ([""] + rest)[1..] == rest;
        assert Join([""] + rest, c) == "" + [c] + Join(rest, c);
      } else {
        assert ([[s[0]] + rest[0]] + rest[1..])[1..] == rest[1..];
      }
      assert [s[0]] + s[1..] == s;
    }
  }
}
