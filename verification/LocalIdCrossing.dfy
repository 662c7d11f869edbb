/** JSON markers over a text put in front of another: those inside the first, and one that begins in the
    first and ends in the second. */
module LocalIdCrossing {
  import opened Lists
  import opened Options
  import opened Strings
  import opened LocalId
  import opened LocalIdText
  import opened LocalIdLines
  import opened LocalIdRoundTrip

  /** A line whose first character is a quote. */
  predicate QuoteLine(line: string) { Skip(line) != "" && Skip(line)[0] == '"' }

  /** No line from the one at `n` on starts with a quote. */
  ghost predicate QuietFrom(lines: seq<string>, n: int) {
    forall i | 0 <= i < |lines| && n <= i :: !QuoteLine(lines[i])
  }

  ghost predicate Quiet(lines: seq<string>) { NoneWhere(QuoteLine, lines) }

  lemma {:induction false} FirstLineQuote(w: string)
    requires QuoteLine(w)
    ensures QuoteLine(Lines(w)[0])
  {
    LinesStep(w[0], w[1..]);
    assert [w[0]] + w[1..] == w;
    var first := Lines(w)[0];
    assert first == [w[0]] + Lines(w[1..])[0] && first[1..] == Lines(w[1..])[0];
    if Blank(w[0]) { FirstLineQuote(w[1..]); }
  }

  /** A JSON marker begins with the newline in front of a line that starts with a quote. */
  lemma HeadHasQuote(s: string)
    ensures JsonHead(s).Some? ==> |Lines(s)| > 1 && QuoteLine(Lines(s)[1])
  {
    if JsonHead(s).Some? {
      var w := Eat("\n", s).value;
      var key := "\"" + KEY + "\"";
      assert SkipEat(key, Some(w)).Some? && key <= Skip(w) && key[0] == '"';
      assert QuoteLine(w);
      FirstLineQuote(w);
      LinesStep('\n', w);
      assert s == ['\n'] + w;
    }
  }

  /** Where no later line starts with a quote there is no JSON marker. */
  lemma {:induction false} QuietHasNoJson(t: string)
    requires QuietFrom(Lines(t), 1)
    ensures StripJson(t) == t
  {
    if t != "" {
      HeadHasQuote(t);
      QuietRest(t);
      QuietHasNoJson(t[1..]);
      assert [t[0]] + t[1..] == t;
    }
  }

  lemma QuietRest(t: string)
    requires t != "" && QuietFrom(Lines(t), 1)
    ensures QuietFrom(Lines(t[1..]), 1)
  {
    var lines, rest := Lines(t), Lines(t[1..]);
    LinesStep(t[0], t[1..]);
    assert [t[0]] + t[1..] == t;
    forall i | 1 <= i < |rest| ensures !QuoteLine(rest[i]) {
      assert rest[i] == lines[if t[0] == '\n' then i + 1 else i];
    }
  }

  lemma {:induction false} QuietTail(t: string, k: nat)
    requires k <= |t| && QuietFrom(Lines(t), 1)
    ensures QuietFrom(Lines(t[k..]), 1)
  {
    if k == 0 {
      assert t[0..] == t;
    } else {
      QuietRest(t);
      QuietTail(t[1..], k - 1);
      assert t[1..][k - 1..] == t[k..];
    }
  }

  // What stands behind a marker is the end of the text.

  predicate IsTail(r: string, s: string) { |r| <= |s| && s[|s| - |r|..] == r }

  lemma TailOfTail(a: string, b: string, c: string)
    requires IsTail(a, b) && IsTail(b, c)
    ensures IsTail(a, c)
  {
    assert c[|c| - |b|..][|b| - |a|..] == c[|c| - |a|..];
  }

  lemma {:induction false} SkipIsTail(s: string)
    ensures IsTail(Skip(s), s)
  {
    if s != "" && Blank(s[0]) {
      SkipIsTail(s[1..]);
      TailOfTail(Skip(s), s[1..], s);
    }
  }

  lemma EatIsTail(literal: string, s: string)
    ensures Eat(literal, s).Some? ==> IsTail(Eat(literal, s).value, s)
  {
  }

  lemma SkipEatIsTail(literal: string, s: Option<string>)
    ensures SkipEat(literal, s).Some? ==> s.Some? && IsTail(SkipEat(literal, s).value, s.value)
  {
    if SkipEat(literal, s).Some? {
      SkipIsTail(s.value);
      EatIsTail(literal, Skip(s.value));
      TailOfTail(SkipEat(literal, s).value, Skip(s.value), s.value);
    }
  }

  lemma {:induction false} UntilQuoteIsTail(s: string)
    ensures UntilQuote(s).Some? ==> IsTail(UntilQuote(s).value.rest, s)
  {
    if s != "" && s[0] != '"' {
      UntilQuoteIsTail(s[1..]);
      if UntilQuote(s).Some? { TailOfTail(UntilQuote(s).value.rest, s[1..], s); }
    }
  }

  lemma HeadIsTail(s: string)
    requires JsonHead(s).Some?
    ensures IsTail(JsonHead(s).value, s)
  {
    var a := Eat("\n", s);
    var b := SkipEat("\"" + KEY + "\"", a);
    var c := SkipEat(":", b);
    EatIsTail("\n", s);
    SkipEatIsTail("\"" + KEY + "\"", a);
    SkipEatIsTail(":", b);
    SkipEatIsTail("\"", c);
    TailOfTail(b.value, a.value, s);
    TailOfTail(c.value, b.value, s);
    TailOfTail(JsonHead(s).value, c.value, s);
  }

  lemma MatchIsTail(s: string)
    requires JsonMatch(s).Some?
    ensures IsTail(JsonMatch(s).value.rest, s)
  {
    var h := JsonHead(s).value;
    var q := UntilQuote(h).value.rest;
    HeadIsTail(s);
    UntilQuoteIsTail(h);
    SkipEatIsTail(",", Some(q));
    TailOfTail(q, h, s);
    TailOfTail(JsonMatch(s).value.rest, q, s);
  }

  // Stripping.

  /** A line from the one at `n` on starts with a quote. */
  ghost predicate QuoteFrom(lines: seq<string>, n: nat) {
    exists i | n <= i < |lines| :: QuoteLine(lines[i])
  }

  lemma QuoteFromTail(u: string, j: nat, n: nat)
    requires j <= |u| && 0 < n && QuoteFrom(Lines(u[j..]), n)
    ensures QuoteFrom(Lines(u), n)
  {
    var a, b := Lines(u[..j]), Lines(u[j..]);
    LinesGlue(u[..j], u[j..]);
    Parts(u, j);
    var i :| n <= i < |b| && QuoteLine(b[i]);
    assert Glue(a, b)[|a| - 1 + i] == b[i];
  }

  lemma QuoteFromStep(x: char, front: string, u: string)
    requires QuoteFrom(Lines(u), |Lines(front)|)
    ensures QuoteFrom(Lines([x] + u), |Lines([x] + front)|)
  {
    LinesStep(x, front);
    LinesStep(x, u);
    var lines := Lines(u);
    var i :| |Lines(front)| <= i < |lines| && QuoteLine(lines[i]);
    assert Lines([x] + u)[if x == '\n' then i + 1 else i] == lines[i];
  }

  /** What stripping makes of the first text and leaves of the second. Either the second is left whole; then
      the first lost ink, or nothing was stripped. Or a marker crosses into the second; then the first
      has a line that starts with a quote further on than what it is made into has lines. */
  ghost predicate Stripped(u: string, t: string, front: string, k: nat) {
    && k <= |t| && StripJson(u + t) == front + t[k..]
    && if k == 0 then Ink(front) <= Ink(u) && (Ink(front) == Ink(u) ==> StripJson(u + t) == u + t)
       else QuoteFrom(Lines(u), |Lines(front)|)
  }

  lemma {:induction false} StripsInTwo(u: string, t: string) returns (front: string, k: nat)
    requires t != "" && t[0] == '\n' && QuietFrom(Lines(t), 1)
    ensures Stripped(u, t, front, k)
    decreases |u|
  {
    if u == "" {
      QuietHasNoJson(t);
      assert u + t == t && "" + t[0..] == t;
      return "", 0;
    }
    if JsonMatch(u + t).None? {
      front, k := StripsInTwo(u[1..], t);
      OneCharMore(u, t, front, k);
      front := [u[0]] + front;
    } else if |JsonMatch(u + t).value.rest| >= |t| {
      var j := |u + t| - |JsonMatch(u + t).value.rest|;
      front, k := StripsInTwo(u[j..], t);
      InsideMatch(u, t, j, front, k);
    } else {
      k := |t| - |JsonMatch(u + t).value.rest|;
      CrossingMatch(u, t, k);
      front := "";
    }
  }

  lemma OneCharMore(u: string, t: string, front: string, k: nat)
    requires u != "" && JsonMatch(u + t).None? && Stripped(u[1..], t, front, k)
    ensures Stripped(u, t, [u[0]] + front, k)
  {
    FrontOfBoth(u, t);
    Assoc([u[0]], front, t[k..]);
    assert [u[0]] + u[1..] == u;
    if k == 0 {
      InkConcat([u[0]], front);
      InkConcat([u[0]], u[1..]);
      Assoc([u[0]], u[1..], t);
    } else {
      QuoteFromStep(u[0], front, u[1..]);
    }
  }

  lemma InsideMatch(u: string, t: string, j: nat, front: string, k: nat)
    requires JsonMatch(u + t).Some? && j <= |u| && |JsonMatch(u + t).value.rest| == |u| - j + |t|
    requires Stripped(u[j..], t, front, k)
    ensures Stripped(u, t, front, k)
  {
    MatchGoes(u + t, j);
    DropOfBoth(u, t, j);
    InkConcat(u, t);
    InkConcat(u[j..], t);
    if k > 0 { QuoteFromTail(u, j, |Lines(front)|); }
  }

  /** A marker at the front goes, with its ink. */
  lemma MatchGoes(s: string, j: nat)
    requires JsonMatch(s).Some? && |JsonMatch(s).value.rest| == |s| - j
    ensures j <= |s| && StripJson(s) == StripJson(s[j..]) && Ink(s[j..]) < Ink(s)
  {
    MatchIsTail(s);
    JsonMatchInk(s);
    StripOfMatch(s);
    assert s[j..] == JsonMatch(s).value.rest;
  }

  lemma StripOfMatch(s: string)
    requires JsonMatch(s).Some?
    ensures StripJson(s) == StripJson(JsonMatch(s).value.rest)
  {
  }

  lemma CrossingMatch(u: string, t: string, k: nat)
    requires u != "" && t != "" && t[0] == '\n' && QuietFrom(Lines(t), 1)
    requires JsonMatch(u + t).Some? && 0 < k <= |t| && |JsonMatch(u + t).value.rest| == |t| - k
    ensures Stripped(u, t, "", k)
  {
    QuietTail(t, k);
    QuietHasNoJson(t[k..]);
    CrossingStrips(u, t, k);
    HeadInFront(u, t);
    assert Lines("") == [""] && "" + t[k..] == t[k..];
  }

  lemma CrossingStrips(u: string, t: string, k: nat)
    requires k <= |t| && StripJson(t[k..]) == t[k..]
    requires JsonMatch(u + t).Some? && |JsonMatch(u + t).value.rest| == |t| - k
    ensures StripJson(u + t) == t[k..]
  {
    MatchGoes(u + t, |u| + k);
    DropBehind(u, t, k);
  }

  lemma DropBehind(u: string, t: string, k: nat)
    requires k <= |t|
    ensures (u + t)[|u| + k..] == t[k..]
  {
  }

  lemma HeadInFront(u: string, t: string)
    requires u != "" && t != "" && t[0] == '\n' && JsonMatch(u + t).Some?
    ensures QuoteFrom(Lines(u), 1)
  {
    JsonHeadTail(u, t);
    HeadHasQuote(u);
  }

  // The passes behind the JSON pass start no line with a quote.

  lemma {:induction false} BlankedIsQuiet(head: string -> bool, close: string -> bool, lines: seq<string>, n: int)
    requires QuietFrom(lines, n)
    ensures QuietFrom(BlankBlocks(head, close, lines), n)
    decreases |lines|
  {
    if lines != [] {
      var opens := Opens(head, close, lines);
      var k := if opens then FirstWhere(close, lines[1..]).value + 2 else 1;
      var rest := lines[k..];
      assert opens ==> lines[1..][k - 1..] == rest;
      forall i | 0 <= i < |rest| && n - k <= i ensures !QuoteLine(rest[i]) { assert rest[i] == lines[i + k]; }
      BlankedIsQuiet(head, close, rest, n - k);
      FrontIsQuiet(if opens then "" else lines[0], BlankBlocks(head, close, rest), n, k);
    }
  }

  lemma FrontIsQuiet(first: string, rest: seq<string>, n: int, k: nat)
    requires QuietFrom(rest, n - k) && 0 < k && (n <= 0 ==> !QuoteLine(first))
    ensures QuietFrom([first] + rest, n)
  {
    var all := [first] + rest;
    forall i | 0 <= i < |all| && n <= i ensures !QuoteLine(all[i]) {
      if i > 0 { assert all[i] == rest[i - 1]; }
    }
  }

  lemma StripLinesIsQuiet(s: string, n: nat)
    requires QuietFrom(Lines(s), n)
    ensures QuietFrom(Lines(StripLines(s)), n)
  {
    var m := BlankManifests(Lines(s));
    BlankedIsQuiet(ManifestHead, CloseLine, Lines(s), n);
    CommentsAreQuiet(m, n);
    var k := StrippedLines(s);
  }

  lemma CommentsAreQuiet(m: seq<string>, n: nat)
    requires QuietFrom(m, n)
    ensures QuietFrom(BlankComments(m), n)
  {
    EmptyLine();
    BlankedWhere(IsComment, m);
  }

  /** What those passes leave is a front of the lines they blanked. */
  lemma StrippedLines(s: string) returns (k: nat)
    ensures var b := BlankComments(BlankManifests(Lines(s))); k <= |b| && Lines(StripLines(s)) == b[..k]
  {
    var m := BlankManifests(Lines(s));
    var b := BlankComments(m);
    BlankedLines(s);
    ManifestsGone(s);
    BlankedText(m);
    TextOfLines(b);
    TrimTakesLines(Unlines(b));
    k :| 0 < k <= |b| && Lines(TrimNewlines(Unlines(b))) == b[..k];
  }

  lemma ManifestsGone(s: string)
    ensures BlankManifests(Lines(s)) != [] && LineText(BlankManifests(Lines(s)))
  {
    EmptyLine();
    LinesOfText(s);
    BlankedHasNoBlock(ManifestHead, CloseLine, Lines(s));
  }

  lemma BlankedText(m: seq<string>)
    requires LineText(m)
    ensures LineText(BlankComments(m))
  {
    EmptyLine();
    BlankedWhere(IsComment, m);
    var b := BlankComments(m);
    forall l | l in b ensures '\n' !in l { var k :| 0 <= k < |b| && b[k] == l; assert m[k] in m; }
  }

  /** A text whose marker crosses is not what stripping leaves. */
  lemma CrossedIsLost(u: string, t: string, front: string, k: nat)
    requires Stripped(u, t, front, k) && 0 < k && QuietFrom(Lines(t), 1)
    ensures StripLines(StripJson(u + t)) != u
  {
    var a, b := Lines(front), Lines(t[k..]);
    QuietTail(t, k);
    LinesGlue(front, t[k..]);
    forall i | |a| <= i < |Glue(a, b)| ensures !QuoteLine(Glue(a, b)[i]) { assert Glue(a, b)[i] == b[i - |a| + 1]; }
    StripLinesIsQuiet(front + t[k..], |a|);
  }
}
