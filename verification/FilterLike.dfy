/** LIKE patterns: escaping, SQLite's matcher with '\' as the escape character, and case folding. */
module FilterLike {
  import opened Lists
  import opened FilterTree

  const ESCAPE := '\\'
  const ANY := '%'
  const SINGLE := '_'

  predicate Special(c: char) { c == ESCAPE || c == ANY || c == SINGLE }

  function EscapeLikeLiteral(s: string): string {
    if s == "" then "" else (if Special(s[0]) then [ESCAPE, s[0]] else [s[0]]) + EscapeLikeLiteral(s[1..])
  }

  function LikePattern(mode: TextMode, value: string): string {
    var escaped := EscapeLikeLiteral(value);
    match mode
    case Prefix => escaped + [ANY]
    case Suffix => [ANY] + escaped
    case Contains => [ANY] + escaped + [ANY]
  }

  /** LIKE compares ASCII letters without regard to case. */
  function Lower(c: char): char { if 'A' <= c <= 'Z' then c - 'A' + 'a' else c }

  predicate Like(pattern: string, s: string)
    decreases |pattern|, |s|
  {
    if pattern == "" then s == ""
    else if pattern[0] == ANY then Like(pattern[1..], s) || (s != "" && Like(pattern, s[1..]))
    else if pattern[0] == SINGLE then s != "" && Like(pattern[1..], s[1..])
    else if pattern[0] == ESCAPE then
      |pattern| > 1 && s != "" && Lower(s[0]) == Lower(pattern[1]) && Like(pattern[2..], s[1..])
    else s != "" && Lower(s[0]) == Lower(pattern[0]) && Like(pattern[1..], s[1..])
  }

  /** Case folding of one character: one or more characters, never an ASCII capital; the three
      special characters fold to themselves and nothing else folds to text with one of them. */
  predicate Folds(c: char, folded: string) {
    && (forall x | x in folded :: !('A' <= x <= 'Z'))
    && (if Special(c) then folded == [c] else forall x | x in folded :: !Special(x))
  }

  type Folding = f: char -> string | forall c :: Folds(c, f(c)) witness (c: char) => [Lower(c)]

  function Fold(f: char -> string, s: string): string {
    if s == "" then "" else f(s[0]) + Fold(f, s[1..])
  }

  /** What a text match promises: the folded text contains, starts with or ends with the folded value. */
  ghost predicate TextHolds(mode: TextMode, s: string, v: string) {
    match mode
    case Prefix => v <= s
    case Suffix => |v| <= |s| && s[|s| - |v|..] == v
    case Contains => exists i | 0 <= i <= |s| :: v <= s[i..]
  }

  lemma {:induction false} FoldConcat(f: Folding, a: string, b: string)
    ensures Fold(f, a + b) == Fold(f, a) + Fold(f, b)
  {
    if a == "" {
      assert a + b == b;
    } else {
      FrontOfBoth(a, b);
      FoldConcat(f, a[1..], b);
    }
  }

  predicate Folded(s: string) { forall x | x in s :: !('A' <= x <= 'Z') }

  lemma {:induction false} FoldIsFolded(f: Folding, s: string)
    ensures Folded(Fold(f, s))
  {
    if s != "" {
      assert Folds(s[0], f(s[0]));
      FoldIsFolded(f, s[1..]);
    }
  }

  lemma {:induction false} EscapeConcat(a: string, b: string)
    ensures EscapeLikeLiteral(a + b) == EscapeLikeLiteral(a) + EscapeLikeLiteral(b)
  {
    if a == "" {
      assert a + b == b;
    } else {
      FrontOfBoth(a, b);
      EscapeConcat(a[1..], b);
    }
  }

  lemma {:induction false} PlainEscapes(s: string)
    requires forall x | x in s :: !Special(x)
    ensures EscapeLikeLiteral(s) == s
  {
    if s != "" {
      assert s[0] in s && forall x | x in s[1..] :: x in s;
      PlainEscapes(s[1..]);
      assert [s[0]] + s[1..] == s;
    }
  }

  /** Folding an escaped value is escaping the folded value. */
  lemma {:induction false} FoldEscapes(f: Folding, v: string)
    ensures Fold(f, EscapeLikeLiteral(v)) == EscapeLikeLiteral(Fold(f, v))
  {
    if v != "" {
      var c, rest := v[0], v[1..];
      FoldEscapes(f, rest);
      EscapeConcat(f(c), Fold(f, rest));
      assert Folds(c, f(c)) && Folds(ESCAPE, f(ESCAPE));
      var head := if Special(c) then [ESCAPE, c] else [c];
      FoldConcat(f, head, EscapeLikeLiteral(rest));
      if Special(c) {
        FoldOne(f, ESCAPE);
        FoldOne(f, c);
        FoldConcat(f, [ESCAPE], [c]);
        assert [ESCAPE] + [c] == head;
        assert EscapeLikeLiteral([c]) == [ESCAPE, c] + EscapeLikeLiteral("");
      } else {
        FoldOne(f, c);
        PlainEscapes(f(c));
      }
    }
  }

  lemma FoldOne(f: Folding, c: char)
    ensures Fold(f, [c]) == f(c)
  {
    assert [c][1..] == "" && Fold(f, "") == "";
    assert f(c) + "" == f(c);
  }

  /** One escaped character at the front of a pattern takes that character. */
  lemma CharMatches(c: char, next: string, s: string)
    requires Folded([c]) && Folded(s)
    ensures Like((if Special(c) then [ESCAPE, c] else [c]) + next, s) <==> s != "" && s[0] == c && Like(next, s[1..])
  {
    var pattern := (if Special(c) then [ESCAPE, c] else [c]) + next;
    assert c in [c] && Lower(c) == c;
    assert s != "" ==> s[0] in s && Lower(s[0]) == s[0];
    assert pattern[if Special(c) then 2 else 1..] == next;
  }

  lemma PrefixOneMore(c: char, v: string, s: string)
    ensures [c] + v <= s <==> s != "" && s[0] == c && v <= s[1..]
    ensures [c] + v <= s ==> s[1 + |v|..] == s[1..][|v|..]
  {
    if s != "" { assert s == [s[0]] + s[1..]; }
  }

  lemma FoldedRest(s: string)
    requires s != "" && Folded(s)
    ensures Folded([s[0]]) && Folded(s[1..])
  {
    assert s[0] in s && forall x | x in s[1..] :: x in s;
  }

  /** An escaped literal at the front of a pattern matches exactly itself. */
  lemma {:induction false} LiteralMatches(v: string, rest: string, s: string)
    requires Folded(v) && Folded(s)
    ensures Like(EscapeLikeLiteral(v) + rest, s) <==> v <= s && Like(rest, s[|v|..])
  {
    if v == "" {
      assert EscapeLikeLiteral(v) + rest == rest && s[0..] == s;
    } else {
      var c, tail := v[0], v[1..];
      var next := EscapeLikeLiteral(tail) + rest;
      FoldedRest(v);
      Assoc(if Special(c) then [ESCAPE, c] else [c], EscapeLikeLiteral(tail), rest);
      CharMatches(c, next, s);
      PrefixOneMore(c, tail, s);
      assert v == [c] + tail;
      if s != "" {
        FoldedRest(s);
        LiteralMatches(tail, rest, s[1..]);
      }
    }
  }

  /** A leading '%' skips any number of characters. */
  lemma {:induction false} AnyMatches(rest: string, s: string)
    ensures Like([ANY] + rest, s) <==> exists i | 0 <= i <= |s| :: Like(rest, s[i..])
    decreases |s|
  {
    assert ([ANY] + rest)[1..] == rest;
    assert s[0..] == s;
    if s != "" {
      AnyMatches(rest, s[1..]);
      forall i | 0 <= i <= |s[1..]| ensures s[1..][i..] == s[i + 1..] {}
      if exists i | 0 <= i <= |s| :: Like(rest, s[i..]) {
        var i :| 0 <= i <= |s| && Like(rest, s[i..]);
        if i > 0 { assert s[1..][i - 1..] == s[i..]; }
      }
    }
  }

  /** For every value and text, the rendered LIKE holds exactly when the folded text contains, starts
      with or ends with the folded value. */
  lemma LikeIsExact(f: Folding, mode: TextMode, value: string, s: string)
    ensures Like(Fold(f, LikePattern(mode, value)), Fold(f, s)) <==> TextHolds(mode, Fold(f, s), Fold(f, value))
  {
    var v, t, escaped := Fold(f, value), Fold(f, s), EscapeLikeLiteral(value);
    var body := EscapeLikeLiteral(v);
    FoldIsFolded(f, value);
    FoldIsFolded(f, s);
    FoldEscapes(f, value);
    assert Folds(ANY, f(ANY));
    FoldOne(f, ANY);
    FoldConcat(f, escaped, [ANY]);
    FoldConcat(f, [ANY], escaped);
    FoldConcat(f, [ANY] + escaped, [ANY]);
    match mode
    case Prefix =>
      LiteralMatches(v, [ANY], t);
      EverythingMatches(if v <= t then t[|v|..] else "");
    case Suffix =>
      SuffixMatches(v, t);
    case Contains =>
      ContainsMatches(v, t);
      assert [ANY] + body + [ANY] == [ANY] + (body + [ANY]);
  }

  lemma EverythingMatches(s: string)
    ensures Like([ANY], s)
  {
    AnyMatches("", s);
    assert [ANY] + "" == [ANY] && s[|s|..] == "";
    assert Like("", s[|s|..]);
  }

  lemma SuffixMatches(v: string, t: string)
    requires Folded(v) && Folded(t)
    ensures Like([ANY] + EscapeLikeLiteral(v), t) <==> TextHolds(Suffix, t, v)
  {
    AnyMatches(EscapeLikeLiteral(v), t);
    assert EscapeLikeLiteral(v) + "" == EscapeLikeLiteral(v);
    forall i | 0 <= i <= |t| ensures Like(EscapeLikeLiteral(v), t[i..]) <==> t[i..] == v {
      assert Folded(t[i..]) by { assert forall x | x in t[i..] :: x in t; }
      LiteralMatches(v, "", t[i..]);
    }
    if TextHolds(Suffix, t, v) { assert Like(EscapeLikeLiteral(v), t[|t| - |v|..]); }
  }

  lemma ContainsMatches(v: string, t: string)
    requires Folded(v) && Folded(t)
    ensures Like([ANY] + (EscapeLikeLiteral(v) + [ANY]), t) <==> TextHolds(Contains, t, v)
  {
    AnyMatches(EscapeLikeLiteral(v) + [ANY], t);
    forall i | 0 <= i <= |t| ensures Like(EscapeLikeLiteral(v) + [ANY], t[i..]) <==> v <= t[i..] {
      assert Folded(t[i..]) by { assert forall x | x in t[i..] :: x in t; }
      LiteralMatches(v, [ANY], t[i..]);
      EverythingMatches(if v <= t[i..] then t[i..][|v|..] else "");
    }
  }
}
