/** Searching the stored text of a tag list with LIKE: what is found is a tag, or the punctuation of the list. */
module FilterTags {
  import opened Lists
  import opened Options
  import opened Strings
  import opened FilterTree
  import opened FilterLike

  // LIKE without an escape character.

  predicate PlainLike(pattern: string, s: string)
    decreases |pattern|, |s|
  {
    if pattern == "" then s == ""
    else if pattern[0] == ANY then PlainLike(pattern[1..], s) || (s != "" && PlainLike(pattern, s[1..]))
    else s != "" && (pattern[0] == SINGLE || Lower(s[0]) == Lower(pattern[0])) && PlainLike(pattern[1..], s[1..])
  }

  /** Case folding as LIKE does it. */
  function Lowered(s: string): (r: string)
    ensures |r| == |s|
  {
    if s == "" then "" else [Lower(s[0])] + Lowered(s[1..])
  }

  lemma {:induction false} LoweredChars(s: string)
    ensures forall i | 0 <= i < |s| :: Lowered(s)[i] == Lower(s[i])
  {
    if s != "" { LoweredChars(s[1..]); }
  }

  lemma LoweredConcat(a: string, b: string)
    ensures Lowered(a + b) == Lowered(a) + Lowered(b)
  {
    LoweredChars(a);
    LoweredChars(b);
    LoweredChars(a + b);
  }

  const ASCII: Folding := (c: char) => [Lower(c)]

  lemma {:induction false} LoweredIsFolded(s: string)
    ensures Lowered(s) == Fold(ASCII, s)
  {
    if s != "" { LoweredIsFolded(s[1..]); }
  }

  lemma {:induction false} PlainLikeFolds(pattern: string, s: string)
    requires ESCAPE !in pattern
    ensures PlainLike(pattern, s) <==> Like(Lowered(pattern), Lowered(s))
    decreases |pattern|, |s|
  {
    if pattern != "" {
      assert forall c | c in pattern[1..] :: c in pattern;
      if pattern[0] == ANY { AnyFolds(pattern, s); } else { OneFolds(pattern, s); }
    }
  }

  lemma {:induction false} AnyFolds(pattern: string, s: string)
    requires ESCAPE !in pattern && pattern != "" && pattern[0] == ANY && ESCAPE !in pattern[1..]
    ensures PlainLike(pattern, s) <==> Like(Lowered(pattern), Lowered(s))
    decreases |pattern|, |s|, 0
  {
    PlainLikeFolds(pattern[1..], s);
    AnyStep(Lowered(pattern[1..]), Lowered(s));
    if s != "" {
      AnyFolds(pattern, s[1..]);
    }
  }

  lemma {:induction false} OneFolds(pattern: string, s: string)
    requires ESCAPE !in pattern && pattern != "" && pattern[0] != ANY && ESCAPE !in pattern[1..]
    ensures PlainLike(pattern, s) <==> Like(Lowered(pattern), Lowered(s))
    decreases |pattern|, |s|, 0
  {
    var p, rest := pattern[0], Lowered(pattern[1..]);
    assert p in pattern;
    LowerKeepsSpecial(p);
    if s == "" {
      NothingMatches(Lower(p), rest);
    } else {
      LowerKeepsSpecial(s[0]);
      PlainLikeFolds(pattern[1..], s[1..]);
      OneStep(Lower(p), rest, Lower(s[0]), Lowered(s[1..]));
    }
  }

  lemma LowerKeepsSpecial(c: char)
    ensures Lower(Lower(c)) == Lower(c)
    ensures (Lower(c) == ANY <==> c == ANY) && (Lower(c) == SINGLE <==> c == SINGLE)
    ensures Lower(c) == ESCAPE <==> c == ESCAPE
  {
  }

  lemma NothingMatches(p: char, rest: string)
    requires p != ANY
    ensures !Like([p] + rest, "")
  {
    assert ([p] + rest)[0] == p;
  }

  lemma AnyStep(rest: string, t: string)
    ensures Like([ANY] + rest, t) <==> Like(rest, t) || (t != "" && Like([ANY] + rest, t[1..]))
  {
    assert ([ANY] + rest)[1..] == rest;
  }

  lemma OneStep(p: char, rest: string, c: char, t: string)
    requires p != ANY && p != ESCAPE && Lower(p) == p && Lower(c) == c
    ensures Like([p] + rest, [c] + t) <==> (p == SINGLE || p == c) && Like(rest, t)
  {
    assert ([p] + rest)[1..] == rest && ([c] + t)[1..] == t;
  }

  /** No special character of LIKE. */
  predicate Unspecial(s: string) { forall c | c in s :: !Special(c) }

  /** A pattern with one literal finds it anywhere, without regard to ASCII case. */
  lemma FindsLiteral(v: string, s: string)
    requires Unspecial(v)
    ensures PlainLike("%" + v + "%", s) <==> TextHolds(Contains, Lowered(s), Lowered(v))
  {
    PlainEscapes(v);
    assert LikePattern(Contains, v) == "%" + v + "%";
    PlainLikeFolds("%" + v + "%", s);
    LoweredIsFolded("%" + v + "%");
    LoweredIsFolded(v);
    LoweredIsFolded(s);
    LikeIsExact(ASCII, Contains, v, s);
  }

  // Looking for a text between quotes.

  predicate Quoteless(pieces: seq<string>) { forall p | p in pieces :: '"' !in p }

  ghost predicate Occurs(s: string, w: string) { TextHolds(Contains, s, w) }

  /** An occurrence in two parts of a text starts in the first or lies in the second. */
  lemma OccursSplits(a: string, b: string, w: string)
    ensures Occurs(a + b, w) <==> (exists i | 0 <= i < |a| :: w <= (a + b)[i..]) || Occurs(b, w)
  {
    forall i | 0 <= i <= |b| ensures (a + b)[|a| + i..] == b[i..] {}
    if Occurs(b, w) {
      var i :| 0 <= i <= |b| && w <= b[i..];
      assert w <= (a + b)[|a| + i..];
    }
    if Occurs(a + b, w) {
      var i :| 0 <= i <= |a + b| && w <= (a + b)[i..];
      if i >= |a| { assert w <= b[i - |a|..]; }
    }
  }

  lemma PrefixLacks(v: string, a: string, rest: string)
    requires '"' !in v
    ensures v <= a + ("\"" + rest) <==> v <= a
  {
    var s := a + ("\"" + rest);
    if v <= s {
      PrefixItems(v, s);
      assert s[|a|] == '"';
      assert v == s[..|v|] == a[..|v|];
    }
  }

  lemma SuffixFrom(a: string, rest: string, i: nat)
    requires i <= |a|
    ensures (a + ("\"" + rest))[i..] == a[i..] + ("\"" + rest)
  {
  }

  /** A quote and a text stand at a place up to the first quote exactly when it is that quote's. */
  lemma QuotedFrom(a: string, rest: string, v: string, i: nat)
    requires '"' !in a && i <= |a|
    ensures "\"" + v <= (a + "\"" + rest)[i..] <==> i == |a| && v <= rest
  {
    assert (a + "\"" + rest)[i..][0] == (a + "\"")[i];
    if i == |a| { QuoteFront(a, rest, v); } else { assert a[i] in a; }
  }

  lemma QuoteFront(a: string, rest: string, w: string)
    ensures "\"" + w <= (a + "\"" + rest)[|a|..] <==> w <= rest
  {
    var s, t := "\"" + w, "\"" + rest;
    assert (a + "\"" + rest)[|a|..] == t;
    assert s[1..] == w && t[1..] == rest;
    if s <= t { assert t[1..][..|w|] == t[..|s|][1..]; }
  }

  lemma OccursQuoted(a: string, rest: string, v: string)
    requires '"' !in a
    ensures Occurs(a + "\"" + rest, "\"" + v) <==> v <= rest || Occurs(rest, "\"" + v)
  {
    OccursSplits(a + "\"", rest, "\"" + v);
    forall i | 0 <= i < |a + "\""| ensures "\"" + v <= (a + "\"" + rest)[i..] <==> i == |a| && v <= rest {
      QuotedFrom(a, rest, v, i);
    }
    if v <= rest { assert "\"" + v <= (a + "\"" + rest)[|a|..]; }
  }

  /** Behind a quote. */
  lemma {:induction false} OccursBehindQuote(pieces: seq<string>, v: string)
    requires pieces != [] && Quoteless(pieces) && '"' !in v
    ensures Occurs(Join(pieces, '"'), "\"" + v) <==> exists k | 0 < k < |pieces| :: v <= pieces[k]
  {
    var a, w := pieces[0], "\"" + v;
    if |pieces| == 1 {
      NoQuoteOccurs(a, w);
    } else {
      var rest := Join(pieces[1..], '"');
      assert Quoteless(pieces[1..]) by { assert forall p | p in pieces[1..] :: p in pieces; }
      OccursBehindQuote(pieces[1..], v);
      Cut(pieces);
      OccursQuoted(a, rest, v);
      FirstPiece(pieces[1..], v);
      BehindLater(pieces, v);
    }
  }

  lemma NoQuoteOccurs(a: string, w: string)
    requires '"' !in a && '"' in w
    ensures !Occurs(a, w)
  {
    forall i | 0 <= i <= |a| ensures !(w <= a[i..]) {
      if w <= a[i..] { CharsOfPart(a, w, i); }
    }
  }

  lemma CharsOfPart(a: string, w: string, i: nat)
    requires i <= |a| && w <= a[i..]
    ensures forall c | c in w :: c in a
  {
    assert forall k | 0 <= k < |w| :: w[k] == a[i + k];
  }

  lemma Cut(pieces: seq<string>)
    requires |pieces| > 1
    ensures Join(pieces, '"') == pieces[0] + "\"" + Join(pieces[1..], '"')
    ensures pieces[0] + "\"" + Join(pieces[1..], '"') == pieces[0] + ("\"" + Join(pieces[1..], '"'))
  {
  }

  lemma LaterPieces(pieces: seq<string>)
    requires |pieces| > 1
    ensures forall k | 0 <= k < |pieces[1..]| :: pieces[1..][k] == pieces[k + 1]
    ensures forall k | 0 < k < |pieces| :: pieces[k] == pieces[1..][k - 1]
  {
  }

  lemma FirstPiece(pieces: seq<string>, v: string)
    requires pieces != [] && '"' !in v
    ensures v <= Join(pieces, '"') <==> v <= pieces[0]
  {
    if |pieces| > 1 {
      Cut(pieces);
      PrefixLacks(v, pieces[0], Join(pieces[1..], '"'));
    }
  }

  predicate EndsIn(s: string, v: string) { |v| <= |s| && s[|s| - |v|..] == v }

  /** A text and a quote stand at the front of a piece and a quote exactly when they are that. */
  lemma UpToQuote(a: string, rest: string, v: string)
    requires '"' !in v && '"' !in a
    ensures v + "\"" <= a + ("\"" + rest) <==> v == a
  {
    var s, w := a + ("\"" + rest), v + "\"";
    assert s == a + "\"" + rest;
    if w <= s { SamePiece(a, rest, v, s[|w|..]); }
  }

  lemma SamePiece(a: string, rest: string, v: string, more: string)
    requires '"' !in v && '"' !in a
    requires v + "\"" + more == a + ("\"" + rest)
    ensures v == a
  {
    assert v + "\"" + more == v + ['"'] + more && a + ("\"" + rest) == a + ['"'] + rest;
    SplitFirst(v, more, '"');
    SplitFirst(a, rest, '"');
    assert ([v] + Split(more, '"'))[0] == v && ([a] + Split(rest, '"'))[0] == a;
  }

  /** In front of a quote. */
  lemma {:induction false} OccursBeforeQuote(pieces: seq<string>, v: string)
    requires pieces != [] && Quoteless(pieces) && '"' !in v
    ensures Occurs(Join(pieces, '"'), v + "\"") <==> exists k | 0 <= k < |pieces| - 1 :: EndsIn(pieces[k], v)
  {
    var a, w := pieces[0], v + "\"";
    if |pieces| == 1 {
      assert w[|v|] == '"';
      NoQuoteOccurs(a, w);
    } else {
      var rest := Join(pieces[1..], '"');
      assert Quoteless(pieces[1..]) by { assert forall p | p in pieces[1..] :: p in pieces; }
      OccursBeforeQuote(pieces[1..], v);
      Cut(pieces);
      OccursSplits(a + "\"", rest, w);
      forall i | 0 <= i <= |a| ensures w <= (a + "\"" + rest)[i..] <==> a[i..] == v {
        SuffixFrom(a, rest, i);
        assert '"' !in a[i..] by { assert forall c | c in a[i..] :: c in a; }
        UpToQuote(a[i..], rest, v);
      }
      if EndsIn(a, v) { assert a[|a| - |v|..] == v; }
      LaterPieces(pieces);
    }
  }

  /** Between two quotes. */
  lemma {:induction false} OccursBetweenQuotes(pieces: seq<string>, v: string)
    requires pieces != [] && Quoteless(pieces) && '"' !in v
    ensures Occurs(Join(pieces, '"'), "\"" + v + "\"") <==> exists k | 0 < k < |pieces| - 1 :: pieces[k] == v
  {
    var a, w := pieces[0], "\"" + v + "\"";
    if |pieces| == 1 {
      assert w[0] == '"';
      NoQuoteOccurs(a, w);
    } else {
      var rest := Join(pieces[1..], '"');
      assert Quoteless(pieces[1..]) by { assert forall p | p in pieces[1..] :: p in pieces; }
      OccursBetweenQuotes(pieces[1..], v);
      Cut(pieces);
      assert w == "\"" + (v + "\"");
      OccursQuoted(a, rest, v + "\"");
      ClosedFirst(pieces[1..], v);
      BetweenLater(pieces, v);
    }
  }

  lemma BehindLater(pieces: seq<string>, v: string)
    requires |pieces| > 1
    ensures var rest := pieces[1..];
      (exists k | 0 < k < |pieces| :: v <= pieces[k]) <==> v <= rest[0] || exists k | 0 < k < |rest| :: v <= rest[k]
  {
    var rest := pieces[1..];
    LaterPieces(pieces);
    if k :| 0 < k < |pieces| && v <= pieces[k] { assert v <= rest[k - 1]; }
    if k :| 0 < k < |rest| && v <= rest[k] { assert v <= pieces[k + 1]; }
  }

  lemma BetweenLater(pieces: seq<string>, v: string)
    requires |pieces| > 1
    ensures var rest := pieces[1..];
      (exists k | 0 < k < |pieces| - 1 :: pieces[k] == v)
        <==> (|rest| > 1 && rest[0] == v) || exists k | 0 < k < |rest| - 1 :: rest[k] == v
  {
    var rest := pieces[1..];
    LaterPieces(pieces);
    if k :| 0 < k < |pieces| - 1 && pieces[k] == v { assert rest[k - 1] == v; }
    if k :| 0 < k < |rest| - 1 && rest[k] == v { assert pieces[k + 1] == v; }
  }

  lemma ClosedFirst(pieces: seq<string>, v: string)
    requires pieces != [] && Quoteless(pieces) && '"' !in v
    ensures v + "\"" <= Join(pieces, '"') <==> |pieces| > 1 && pieces[0] == v
  {
    if |pieces| > 1 {
      Cut(pieces);
      UpToQuote(pieces[0], Join(pieces[1..], '"'), v);
    } else {
      assert v + "\"" <= pieces[0] ==> (v + "\"")[|v|] in pieces[0];
    }
  }

  /** Anywhere. */
  lemma {:induction false} OccursInPiece(pieces: seq<string>, v: string)
    requires pieces != [] && '"' !in v
    ensures Occurs(Join(pieces, '"'), v) <==> exists k | 0 <= k < |pieces| :: Occurs(pieces[k], v)
  {
    var a := pieces[0];
    if |pieces| > 1 {
      var rest := Join(pieces[1..], '"');
      OccursInPiece(pieces[1..], v);
      Cut(pieces);
      OccursSplits(a + "\"", rest, v);
      forall i | 0 <= i <= |a| ensures v <= (a + "\"" + rest)[i..] <==> v <= a[i..] {
        SuffixFrom(a, rest, i);
        PrefixLacks(v, a[i..], rest);
      }
      LaterPieces(pieces);
    }
  }

  // The stored text of a list.

  function Hex(n: nat): char
    requires n < 16
  {
    "0123456789abcdef"[n]
  }

  /** A character of a JSON string, as section 7 of RFC 8259 has it written. */
  function EncodedChar(c: char): string {
    if c == '"' || c == '\\' then ['\\', c]
    else if c < ' ' then "\\u00" + [Hex(c as int / 16), Hex(c as int % 16)]
    else [c]
  }

  function Encoded(s: string): string { if s == "" then "" else EncodedChar(s[0]) + Encoded(s[1..]) }

  /** A text that JSON writes as it is. */
  predicate Clean(s: string) { forall c | c in s :: c != '"' && c != '\\' && c >= ' ' }

  lemma {:induction false} CleanIsItself(s: string)
    requires Clean(s)
    ensures Encoded(s) == s && '"' !in s
  {
    if s != "" {
      assert s[0] in s && forall c | c in s[1..] :: c in s;
      CleanIsItself(s[1..]);
      assert [s[0]] + s[1..] == s;
    }
  }

  /** What stands between the quotes from the first tag to the last. */
  function Between(tags: seq<string>): seq<string> {
    if tags == [] then [] else if |tags| == 1 then [Encoded(tags[0])] else [Encoded(tags[0]), ","] + Between(tags[1..])
  }

  /** What stands between the quotes of the list. */
  function Pieces(tags: seq<string>): seq<string> {
    if tags == [] then ["[]"] else ["["] + Between(tags) + ["]"]
  }

  function ListText(tags: seq<string>): string { Join(Pieces(tags), '"') }

  predicate AllClean(tags: seq<string>) { forall t | t in tags :: Clean(t) }

  lemma {:induction false} BetweenAreTags(tags: seq<string>)
    requires AllClean(tags)
    ensures forall p :: p in Between(tags) <==> p in tags || (p == "," && |tags| > 1)
  {
    if tags != [] {
      assert tags[0] in tags && forall t | t in tags[1..] :: t in tags;
      CleanIsItself(tags[0]);
      BetweenAreTags(tags[1..]);
      assert tags == [tags[0]] + tags[1..];
    }
  }

  function AllLowered(pieces: seq<string>): (r: seq<string>)
    ensures |r| == |pieces| && forall k | 0 <= k < |r| :: r[k] == Lowered(pieces[k])
  {
    if pieces == [] then [] else [Lowered(pieces[0])] + AllLowered(pieces[1..])
  }

  lemma {:induction false} LoweredJoin(pieces: seq<string>)
    ensures Lowered(Join(pieces, '"')) == Join(AllLowered(pieces), '"')
  {
    if |pieces| > 1 {
      LoweredJoin(pieces[1..]);
      LoweredConcat(pieces[0] + ['"'], Join(pieces[1..], '"'));
      LoweredConcat(pieces[0], ['"']);
    }
  }

  lemma LoweredLacksQuote(s: string)
    requires '"' !in s
    ensures '"' !in Lowered(s)
  {
    LoweredChars(s);
    assert forall i | 0 <= i < |s| :: s[i] in s;
  }

  lemma PiecesLackQuotes(tags: seq<string>)
    requires AllClean(tags)
    ensures Quoteless(AllLowered(Pieces(tags)))
  {
    BetweenAreTags(tags);
    forall k | 0 <= k < |Pieces(tags)| ensures '"' !in Lowered(Pieces(tags)[k]) {
      var p := Pieces(tags)[k];
      assert p in Pieces(tags);
      if p in tags { CleanIsItself(p); }
      LoweredLacksQuote(p);
    }
  }

  // The searches.

  /** What is looked for: a whole tag, or the start, the end or any part of one. */
  function Needle(mode: Option<TextMode>, v: string): string {
    match mode
    case None => "\"" + v + "\""
    case Some(Prefix) => "\"" + v
    case Some(Suffix) => v + "\""
    case Some(Contains) => v
  }

  function Pattern(mode: Option<TextMode>, v: string): string { "%" + Needle(mode, v) + "%" }

  /** The tag is one that is looked for, without regard to ASCII case. */
  ghost predicate Meets(mode: Option<TextMode>, v: string, t: string) {
    match mode
    case None => Lowered(t) == Lowered(v)
    case Some(m) => TextHolds(m, Lowered(t), Lowered(v))
  }

  ghost predicate Met(mode: Option<TextMode>, v: string, tags: seq<string>) {
    exists t | t in tags :: Meets(mode, v, t)
  }

  /** What is looked for is punctuation of the list. */
  predicate Punctuation(mode: Option<TextMode>, v: string, tags: seq<string>) {
    || (v == "," && |tags| > 1)
    || (v == "]" && tags != [] && (mode == Some(Prefix) || mode == Some(Contains)))
    || (v == "[" && tags != [] && (mode == Some(Suffix) || mode == Some(Contains)))
  }

  lemma LoweredNeedle(mode: Option<TextMode>, v: string)
    ensures Lowered(Needle(mode, v)) == Needle(mode, Lowered(v))
  {
    LoweredConcat("\"", v);
    LoweredConcat(v, "\"");
    LoweredConcat("\"" + v, "\"");
  }

  /** Lower-casing makes no punctuation. */
  lemma LoweredPunctuation(v: string, x: char)
    requires x == ',' || x == '[' || x == ']'
    ensures Lowered([x]) == [x] && (Lowered(v) == [x] <==> v == [x])
    ensures Lowered(v) <= [x] <==> v == "" || v == [x]
    ensures EndsIn([x], Lowered(v)) <==> v == "" || v == [x]
  {
    LoweredChars(v);
    OfOne(Lowered(v), x);
    assert v != "" ==> Lowered(v)[0] == Lower(v[0]);
  }

  lemma OfOne(w: string, x: char)
    ensures w <= [x] <==> w == "" || w == [x]
    ensures EndsIn([x], w) <==> w == "" || w == [x]
  {
    assert [x][0..] == [x] && [x][1..] == "";
    assert w <= [x] ==> w == [x][..|w|];
  }

  lemma PartOfPunctuation(v: string, x: char)
    requires x == ',' || x == '[' || x == ']'
    ensures Occurs(Lowered([x]), Lowered(v)) <==> v == "" || v == [x]
  {
    var w := Lowered(v);
    LoweredPunctuation(v, x);
    assert [x][0..] == [x] && [x][1..] == "";
    if Occurs([x], w) {
      var i :| 0 <= i <= |[x]| && w <= [x][i..];
      assert w <= [x];
    }
    if w <= [x] { assert w <= [x][0..]; }
  }

  lemma PieceAt(tags: seq<string>, k: nat)
    requires tags != [] && k < |Pieces(tags)|
    ensures |Pieces(tags)| == |Between(tags)| + 2
    ensures AllLowered(Pieces(tags))[k]
         == if k == 0 then Lowered("[")
            else if k <= |Between(tags)| then Lowered(Between(tags)[k - 1]) else Lowered("]")
  {
  }

  ghost predicate InTags(tags: seq<string>, test: string -> bool) {
    (exists t | t in tags :: test(Lowered(t))) || (|tags| > 1 && test(Lowered(",")))
  }

  lemma InTagsIsBetween(tags: seq<string>, test: string -> bool)
    requires AllClean(tags)
    ensures InTags(tags, test) <==> exists p | p in Between(tags) :: test(Lowered(p))
  {
    BetweenAreTags(tags);
    if |tags| > 1 && test(Lowered(",")) { assert "," in Between(tags); }
    if t :| t in tags && test(Lowered(t)) { assert t in Between(tags); }
    if p :| p in Between(tags) && test(Lowered(p)) { assert p in tags || (p == "," && |tags| > 1); }
  }

  /** Something between the first quote and the last. */
  lemma InBetween(tags: seq<string>, test: string -> bool)
    requires AllClean(tags) && tags != []
    ensures var pieces := AllLowered(Pieces(tags));
      InTags(tags, test) <==> exists k | 0 < k < |pieces| - 1 :: test(pieces[k])
  {
    var pieces := AllLowered(Pieces(tags));
    InTagsIsBetween(tags, test);
    if p :| p in Between(tags) && test(Lowered(p)) {
      var k := WhichPiece(tags, p);
      assert test(pieces[k]);
    }
    if k :| 0 < k < |pieces| - 1 && test(pieces[k]) {
      PieceAt(tags, k);
      var p := Between(tags)[k - 1];
      assert p in Between(tags) && test(Lowered(p));
    }
  }

  lemma WhichPiece(tags: seq<string>, p: string) returns (k: nat)
    requires tags != [] && p in Between(tags)
    ensures 0 < k < |AllLowered(Pieces(tags))| - 1 && AllLowered(Pieces(tags))[k] == Lowered(p)
  {
    var j :| 0 <= j < |Between(tags)| && Between(tags)[j] == p;
    k := j + 1;
    PieceAt(tags, k);
  }

  lemma InFromFirst(tags: seq<string>, test: string -> bool)
    requires AllClean(tags) && tags != []
    ensures var pieces := AllLowered(Pieces(tags));
      InTags(tags, test) || test(Lowered("]")) <==> exists k | 0 < k < |pieces| :: test(pieces[k])
  {
    var pieces := AllLowered(Pieces(tags));
    InBetween(tags, test);
    PieceAt(tags, |pieces| - 1);
    if test(Lowered("]")) { assert test(pieces[|pieces| - 1]); }
    if k :| 0 < k < |pieces| - 1 && test(pieces[k]) { assert 0 < k < |pieces|; }
  }

  lemma InUpToLast(tags: seq<string>, test: string -> bool)
    requires AllClean(tags) && tags != []
    ensures var pieces := AllLowered(Pieces(tags));
      InTags(tags, test) || test(Lowered("[")) <==> exists k | 0 <= k < |pieces| - 1 :: test(pieces[k])
  {
    var pieces := AllLowered(Pieces(tags));
    InBetween(tags, test);
    PieceAt(tags, 0);
    if test(Lowered("[")) { assert test(pieces[0]); }
    if k :| 0 < k < |pieces| - 1 && test(pieces[k]) { assert 0 <= k < |pieces| - 1; }
  }

  lemma InAll(tags: seq<string>, test: string -> bool)
    requires AllClean(tags) && tags != []
    ensures var pieces := AllLowered(Pieces(tags));
      InTags(tags, test) || test(Lowered("[")) || test(Lowered("]")) <==>
          exists k | 0 <= k < |pieces| :: test(pieces[k])
  {
    var pieces := AllLowered(Pieces(tags));
    InUpToLast(tags, test);
    PieceAt(tags, |pieces| - 1);
    if test(Lowered("]")) { assert test(pieces[|pieces| - 1]); }
    if k :| 0 <= k < |pieces| - 1 && test(pieces[k]) { assert 0 <= k < |pieces|; }
  }

  /** A search is for a text among lower-cased pieces. */
  lemma SearchIsOccurrence(mode: Option<TextMode>, v: string, tags: seq<string>)
    requires Clean(v) && Unspecial(v) && AllClean(tags)
    ensures var pieces := AllLowered(Pieces(tags));
      && (PlainLike(Pattern(mode, v), ListText(tags)) <==> Occurs(Join(pieces, '"'), Needle(mode, Lowered(v))))
      && pieces != [] && Quoteless(pieces) && '"' !in Lowered(v)
  {
    FindsLiteral(Needle(mode, v), ListText(tags));
    LoweredNeedle(mode, v);
    LoweredJoin(Pieces(tags));
    PiecesLackQuotes(tags);
    LoweredLacksQuote(v);
  }

  function IsText(w: string): string -> bool { x => x == w }
  function Starts(w: string): string -> bool { x => w <= x }
  function Ends(w: string): string -> bool { x => EndsIn(x, w) }
  ghost function Holds(w: string): string -> bool { x => Occurs(x, w) }

  /** The tags that pass a test are those that are looked for. */
  lemma TagsMeet(mode: Option<TextMode>, v: string, tags: seq<string>, test: string -> bool)
    requires forall t | t in tags :: test(Lowered(t)) <==> Meets(mode, v, t)
    ensures InTags(tags, test) <==>
      Met(mode, v, tags) || (|tags| > 1 && test(Lowered(",")))
  {
  }

  lemma WholeOccurs(w: string, tags: seq<string>)
    requires AllClean(tags) && tags != [] && '"' !in w
    ensures Occurs(Join(AllLowered(Pieces(tags)), '"'), "\"" + w + "\"")
      <==> InTags(tags, IsText(w))
  {
    var pieces := AllLowered(Pieces(tags));
    PiecesLackQuotes(tags);
    OccursBetweenQuotes(pieces, w);
    InBetween(tags, IsText(w));
    if k :| 0 < k < |pieces| - 1 && pieces[k] == w { assert IsText(w)(pieces[k]); }
    if k :| 0 < k < |pieces| - 1 && IsText(w)(pieces[k]) { assert pieces[k] == w; }
  }

  lemma WholeFinds(v: string, tags: seq<string>)
    requires Clean(v) && Unspecial(v) && AllClean(tags) && tags != []
    ensures PlainLike(Pattern(None, v), ListText(tags))
      <==> Met(None, v, tags) || Punctuation(None, v, tags)
  {
    SearchIsOccurrence(None, v, tags);
    WholeOccurs(Lowered(v), tags);
    TagsMeet(None, v, tags, IsText(Lowered(v)));
    LoweredPunctuation(v, ',');
  }

  lemma PrefixOccurs(w: string, tags: seq<string>)
    requires AllClean(tags) && tags != [] && '"' !in w
    ensures Occurs(Join(AllLowered(Pieces(tags)), '"'), "\"" + w)
      <==> InTags(tags, Starts(w)) || Starts(w)(Lowered("]"))
  {
    var pieces := AllLowered(Pieces(tags));
    PiecesLackQuotes(tags);
    OccursBehindQuote(pieces, w);
    InFromFirst(tags, Starts(w));
    if k :| 0 < k < |pieces| && w <= pieces[k] { assert Starts(w)(pieces[k]); }
    if k :| 0 < k < |pieces| && Starts(w)(pieces[k]) { assert w <= pieces[k]; }
  }

  lemma PrefixFinds(v: string, tags: seq<string>)
    requires Clean(v) && Unspecial(v) && AllClean(tags) && tags != []
    ensures PlainLike(Pattern(Some(Prefix), v), ListText(tags))
      <==> Met(Some(Prefix), v, tags) || Punctuation(Some(Prefix), v, tags)
  {
    SearchIsOccurrence(Some(Prefix), v, tags);
    PrefixOccurs(Lowered(v), tags);
    TagsMeet(Some(Prefix), v, tags, Starts(Lowered(v)));
    LoweredPunctuation(v, ',');
    LoweredPunctuation(v, ']');
    NothingIsMet(Some(Prefix), tags[0]);
  }

  lemma SuffixOccurs(w: string, tags: seq<string>)
    requires AllClean(tags) && tags != [] && '"' !in w
    ensures Occurs(Join(AllLowered(Pieces(tags)), '"'), w + "\"")
      <==> InTags(tags, Ends(w)) || Ends(w)(Lowered("["))
  {
    var pieces := AllLowered(Pieces(tags));
    PiecesLackQuotes(tags);
    OccursBeforeQuote(pieces, w);
    InUpToLast(tags, Ends(w));
    if k :| 0 <= k < |pieces| - 1 && EndsIn(pieces[k], w) { assert Ends(w)(pieces[k]); }
    if k :| 0 <= k < |pieces| - 1 && Ends(w)(pieces[k]) { assert EndsIn(pieces[k], w); }
  }

  lemma SuffixFinds(v: string, tags: seq<string>)
    requires Clean(v) && Unspecial(v) && AllClean(tags) && tags != []
    ensures PlainLike(Pattern(Some(Suffix), v), ListText(tags))
      <==> Met(Some(Suffix), v, tags) || Punctuation(Some(Suffix), v, tags)
  {
    SearchIsOccurrence(Some(Suffix), v, tags);
    SuffixOccurs(Lowered(v), tags);
    TagsMeet(Some(Suffix), v, tags, Ends(Lowered(v)));
    LoweredPunctuation(v, ',');
    LoweredPunctuation(v, '[');
    NothingIsMet(Some(Suffix), tags[0]);
  }

  lemma ContainsOccurs(w: string, tags: seq<string>)
    requires AllClean(tags) && tags != [] && '"' !in w
    ensures Occurs(Join(AllLowered(Pieces(tags)), '"'), w)
      <==> InTags(tags, Holds(w)) || Holds(w)(Lowered("[")) || Holds(w)(Lowered("]"))
  {
    var pieces := AllLowered(Pieces(tags));
    PiecesLackQuotes(tags);
    OccursInPiece(pieces, w);
    InAll(tags, Holds(w));
    if k :| 0 <= k < |pieces| && Occurs(pieces[k], w) { assert Holds(w)(pieces[k]); }
    if k :| 0 <= k < |pieces| && Holds(w)(pieces[k]) { assert Occurs(pieces[k], w); }
  }

  lemma ContainsFinds(v: string, tags: seq<string>)
    requires Clean(v) && Unspecial(v) && AllClean(tags) && tags != []
    ensures PlainLike(Pattern(Some(Contains), v), ListText(tags))
      <==> Met(Some(Contains), v, tags) || Punctuation(Some(Contains), v, tags)
  {
    SearchIsOccurrence(Some(Contains), v, tags);
    ContainsOccurs(Lowered(v), tags);
    TagsMeet(Some(Contains), v, tags, Holds(Lowered(v)));
    PartOfPunctuation(v, ',');
    PartOfPunctuation(v, '[');
    PartOfPunctuation(v, ']');
    NothingIsMet(Some(Contains), tags[0]);
  }

  /** The empty text is met by every tag. */
  lemma NothingIsMet(mode: Option<TextMode>, t: string)
    requires mode.Some?
    ensures Meets(mode, "", t)
  {
    var s := Lowered(t);
    assert s[0..] == s && s[|s|..] == "" && "" <= s[0..];
  }

  /** The search finds exactly what is looked for in a tag, without regard to ASCII case, and the
      punctuation of the list. */
  lemma SearchFinds(mode: Option<TextMode>, v: string, tags: seq<string>)
    requires Clean(v) && Unspecial(v) && AllClean(tags) && tags != []
    ensures PlainLike(Pattern(mode, v), ListText(tags))
      <==> Met(mode, v, tags) || Punctuation(mode, v, tags)
  {
    match mode
    case None => WholeFinds(v, tags);
    case Some(Prefix) => PrefixFinds(v, tags);
    case Some(Suffix) => SuffixFinds(v, tags);
    case Some(Contains) => ContainsFinds(v, tags);
  }

  /** An empty list holds nothing but brackets. */
  lemma EmptyFindsNothing(mode: Option<TextMode>, v: string)
    requires Clean(v) && Unspecial(v) && mode != Some(Contains)
    ensures !PlainLike(Pattern(mode, v), ListText([]))
  {
    var w := Needle(mode, Lowered(v));
    SearchIsOccurrence(mode, v, []);
    assert w[0] == '"' || w[|w| - 1] == '"';
    NoQuoteOccurs(Join(AllLowered(Pieces([])), '"'), w);
  }

  /** A search for `a_b` finds the list of `axb`. */
  lemma UnderscoreFindsOthers()
    ensures PlainLike(Pattern(None, "a_b"), ListText(["axb"]))
  {
    TextOfOne("axb");
    assert Pattern(None, "a_b") == "%\"" + ("a_b" + "\"%");
    LastMatches();
    Takes('b', 'b', "\"%", "\"]");
    Takes(SINGLE, 'x', ['b'] + "\"%", ['b'] + "\"]");
    Takes('a', 'a', [SINGLE] + (['b'] + "\"%"), ['x'] + (['b'] + "\"]"));
    FrontMatches(['a'] + ([SINGLE] + (['b'] + "\"%")), ['a'] + (['x'] + (['b'] + "\"]")));
    assert "a_b" + "\"%" == ['a'] + ([SINGLE] + (['b'] + "\"%"));
    assert "axb" + "\"]" == ['a'] + (['x'] + (['b'] + "\"]"));
  }

  lemma TextOfOne(t: string)
    requires Clean(t)
    ensures ListText([t]) == "[\"" + (t + "\"]")
  {
    CleanIsItself(t);
    assert Between([t]) == [t] && Pieces([t]) == ["[", t, "]"];
    Cut(["[", t, "]"]);
    Cut([t, "]"]);
    assert ["[", t, "]"][1..] == [t, "]"] && [t, "]"][1..] == ["]"];
  }

  lemma LastMatches()
    ensures PlainLike("\"%", "\"]")
  {
    assert PlainLike("", "") && "%"[1..] == "" && "]"[1..] == "";
    assert PlainLike("%", "");
    assert PlainLike("%", "]");
    Takes('"', '"', "%", "]");
    assert ['"'] + "%" == "\"%" && ['"'] + "]" == "\"]";
  }

  lemma FrontMatches(pattern: string, s: string)
    requires PlainLike(pattern, s)
    ensures PlainLike("%\"" + pattern, "[\"" + s)
  {
    Takes('"', '"', pattern, s);
    AnySkips('[', ['"'] + pattern, ['"'] + s);
    assert "%\"" + pattern == [ANY] + (['"'] + pattern) && "[\"" + s == ['['] + (['"'] + s);
  }

  lemma Takes(p: char, c: char, pattern: string, s: string)
    requires p != ANY && (p == SINGLE || Lower(p) == Lower(c))
    requires PlainLike(pattern, s)
    ensures PlainLike([p] + pattern, [c] + s)
  {
    assert ([p] + pattern)[1..] == pattern && ([c] + s)[1..] == s;
  }

  lemma AnySkips(c: char, pattern: string, s: string)
    requires PlainLike(pattern, s)
    ensures PlainLike([ANY] + pattern, [c] + s)
  {
    assert ([ANY] + pattern)[1..] == pattern && ([c] + s)[1..] == s;
    assert PlainLike([ANY] + pattern, s);
  }
}
