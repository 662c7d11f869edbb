/** A content whose stripping leaves a marker behind: a comment marker stood inside the value of a JSON
    key and kept it from being one. */
module LocalIdLeft {
  import Lists
  import opened Options
  import opened LocalId
  import opened LocalIdText
  import opened LocalIdLines
  import opened LocalIdRoundTrip
  import opened LocalIdView

  const QUOTE: string := "\""

  /** The line that begins the key, the comment marker inside its value, and the line that ends it. */
  const BEGIN: string := QUOTE + KEY + QUOTE + (":" + (" " + (QUOTE + "x")))
  const INSIDE: string := LocalIDComment(QUOTE)
  const END: string := QUOTE + ","

  const WHOLE: string := "{" + ("\n" + BEGIN) + ("\n" + INSIDE) + ("\n" + END)
  const LEFT: string := "\n" + BEGIN + "\n\n" + END

  lemma NoNewlineNoMatch(s: string)
    requires s != "" && s[0] != '\n'
    ensures JsonMatch(s) == None && StripJson(s) == [s[0]] + StripJson(s[1..])
  {
  }

  /** A line is no marker by itself; markers begin with a newline. */
  lemma {:induction false} LineHasNoJson(l: string, s: string)
    requires '\n' !in l
    ensures StripJson(l + s) == l + StripJson(s)
  {
    if l == "" {
      assert l + s == s;
    } else {
      Lists.FrontOfBoth(l, s);
      assert l[0] in l && forall c | c in l[1..] :: c in l;
      NoNewlineNoMatch(l + s);
      LineHasNoJson(l[1..], s);
      Lists.Assoc([l[0]], l[1..], StripJson(s));
      assert [l[0]] + l[1..] == l;
    }
  }

  lemma NewlineStays(s: string)
    requires JsonMatch("\n" + s) == None
    ensures StripJson("\n" + s) == "\n" + StripJson(s)
  {
    assert ("\n" + s)[1..] == s;
  }

  /** A line that does not begin with the key begins no marker. */
  lemma NoKeyNoMatch(s: string)
    requires s != "" && !Blank(s[0]) && !(QUOTE + KEY + QUOTE <= s)
    ensures JsonMatch("\n" + s) == None
  {
    EatFront("\n", s);
    assert Skip(s) == s;
  }

  /** The key is read up to the opening quote of its value. */
  lemma BeginReads(t: string)
    ensures JsonHead("\n" + (BEGIN + t)) == Some("x" + t)
  {
    var value := "x" + t;
    var colon := ":" + (" " + (QUOTE + value));
    var key := QUOTE + KEY + QUOTE;
    assert BEGIN + t == key + colon;
    EatFront("\n", key + colon);
    SkipOne(key + colon);
    EatFront(key, colon);
    SkipOne(colon);
    EatFront(":", " " + (QUOTE + value));
    SkipOne(QUOTE + value);
    EatFront(QUOTE, value);
  }

  lemma ValueEnds(x: string, y: string)
    requires '"' !in x && y != "" && !Blank(y[0])
    ensures JsonMatch("\n" + (BEGIN + (x + (QUOTE + y)))).Some? <==> y[0] == ','
  {
    var t := x + (QUOTE + y);
    BeginReads(t);
    assert "x" + t == ("x" + x) + (QUOTE + y);
    QuotedEnds("x" + x, y);
    assert Skip(y) == y && ("," <= y <==> y[0] == ',');
  }

  lemma BlankBefore(x: string, y: string)
    requires '"' !in x && y != "" && !Blank(y[0])
    ensures JsonMatch("\n" + (BEGIN + (x + (QUOTE + (" " + y))))).Some? <==> y[0] == ','
  {
    var t := x + (QUOTE + (" " + y));
    BeginReads(t);
    assert "x" + t == ("x" + x) + (QUOTE + (" " + y));
    QuotedEnds("x" + x, " " + y);
    SkipOne(y);
    assert "," <= y <==> y[0] == ',';
  }

  const REST3: string := "\n" + (END + "")
  const REST2: string := "\n" + (INSIDE + REST3)
  const REST1: string := "\n" + (BEGIN + REST2)

  lemma LineStays(l: string, s: string)
    requires '\n' !in l && StripJson(s) == s && JsonMatch("\n" + (l + s)) == None
    ensures StripJson("\n" + (l + s)) == "\n" + (l + s)
  {
    NewlineStays(l + s);
    LineHasNoJson(l, s);
  }

  lemma LaterLinesStay()
    ensures StripJson(REST2) == REST2
  {
    InsideLine();
    NoKeyNoMatch(END + "");
    LineStays(END, "");
    NoKeyNoMatch(INSIDE + REST3);
    LineStays(INSIDE, REST3);
  }

  lemma FirstLineStays()
    ensures StripJson(REST1) == REST1
  {
    LaterLinesStay();
    InsideLine();
    FirstLine(REST3);
    LineStays(BEGIN, REST2);
  }

  /** The comment marker's quote ends the value early, so there is no JSON marker. */
  lemma WholeHasNoJson()
    ensures StripJson(WHOLE) == WHOLE
  {
    FirstLineStays();
    LineHasNoJson("{", REST1);
    FourParts("{", "\n", BEGIN, INSIDE, END);
  }

  lemma FourParts(a: string, n: string, b: string, c: string, d: string)
    ensures a + (n + b) + (n + c) + (n + d) == a + (n + (b + (n + (c + (n + (d + ""))))))
  {
  }

  lemma InsideLine()
    ensures INSIDE != "" && INSIDE[0] == '<' && '\n' !in INSIDE && '\n' !in BEGIN && '\n' !in END
    ensures forall s: string :: !(QUOTE + KEY + QUOTE <= INSIDE + s)
  {
    CommentParts(QUOTE);
    assert forall s: string | QUOTE + KEY + QUOTE <= s :: s[0] == '"';
    assert forall s: string :: (INSIDE + s)[0] == '<';
  }

  lemma FirstLine(r3: string)
    ensures JsonMatch("\n" + (BEGIN + ("\n" + (INSIDE + r3)))) == None
  {
    var x, y := "\n" + ("<!-- " + KEY + ": memos/"), "-->" + r3;
    assert INSIDE == ("<!-- " + KEY + ": memos/") + (QUOTE + (" " + "-->"));
    assert "\n" + (INSIDE + r3) == x + (QUOTE + (" " + y));
    BlankBefore(x, y);
  }

  lemma OrdinaryLine(l: string)
    requires l != "" && !Blank(l[0]) && l[0] != '<' && l[0] != '-'
    ensures !IsComment(l) && !ManifestHead(l) && !CloseLine(l)
  {
    assert Skip(l) == l;
    assert forall s: string | "<!--" <= s :: s[0] == '<';
    assert forall s: string | "-->" <= s :: s[0] == '-';
  }

  /** None of the four lines begins or ends a manifest, and only the third is a marker. */
  lemma FourKinds()
    ensures !IsComment("{") && !ManifestHead("{") && !CloseLine("{")
    ensures !IsComment(BEGIN) && !ManifestHead(BEGIN) && !CloseLine(BEGIN)
    ensures IsComment(INSIDE) && !ManifestHead(INSIDE) && !CloseLine(INSIDE)
    ensures !IsComment(END) && !ManifestHead(END) && !CloseLine(END)
  {
    CommentReadsBack(QUOTE);
    CommentIsOrdinary(QUOTE);
    OrdinaryLine("{");
    OrdinaryLine(BEGIN);
    OrdinaryLine(END);
  }

  lemma OneBlanked(a: string, b: string, c: string, d: string)
    requires !IsComment(a) && !IsComment(b) && IsComment(c) && !IsComment(d)
    ensures BlankComments([a, b, c, d]) == [a, b, "", d]
  {
    EmptyLine();
    BlankedWhere(IsComment, [a, b, c, d]);
  }

  lemma NoManifest(a: string, b: string, c: string, d: string)
    requires !ManifestHead(a) && !ManifestHead(b) && !ManifestHead(c) && !ManifestHead(d)
    ensures BlankManifests([a, b, c, d]) == [a, b, c, d] && FirstBlock(ManifestHead, CloseLine, [a, b, c, d]) == ""
  {
    NothingToBlank(ManifestHead, CloseLine, [a, b, c, d]);
  }

  lemma WholeLines()
    ensures Lines(WHOLE) == ["{", BEGIN, INSIDE, END]
    ensures BlankManifests(["{", BEGIN, INSIDE, END]) == ["{", BEGIN, INSIDE, END]
    ensures FirstBlock(ManifestHead, CloseLine, ["{", BEGIN, INSIDE, END]) == ""
    ensures BlankComments(["{", BEGIN, INSIDE, END]) == ["{", BEGIN, "", END]
  {
    InsideLine();
    FourKinds();
    FourLines("{", BEGIN, INSIDE, END);
    NoManifest("{", BEGIN, INSIDE, END);
    OneBlanked("{", BEGIN, INSIDE, END);
  }

  lemma FourLines(a: string, b: string, c: string, d: string)
    requires '\n' !in a && '\n' !in b && '\n' !in c && '\n' !in d
    ensures Lines(a + ("\n" + b) + ("\n" + c) + ("\n" + d)) == [a, b, c, d]
    ensures Unlines([a, b, c, d]) == a + ("\n" + b) + ("\n" + c) + ("\n" + d)
  {
    assert [a, b, c, d][1..] == [b, c, d] && [b, c, d][1..] == [c, d] && [c, d][1..] == [d];
    assert Unlines([d]) == d && Unlines([c, d]) == c + ['\n'] + Unlines([d]);
    assert Unlines([b, c, d]) == b + ['\n'] + Unlines([c, d]);
    assert Unlines([a, b, c, d]) == a + ['\n'] + Unlines([b, c, d]);
    assert a + ['\n'] + (b + ['\n'] + (c + ['\n'] + d)) == a + ("\n" + b) + ("\n" + c) + ("\n" + d);
    TextOfLines([a, b, c, d]);
  }

  /** What stripping makes of it: the comment marker's line is empty, and the key is a marker now. */
  lemma WholeIsStripped()
    ensures StripLocalID(WHOLE) == "{" + LEFT
  {
    WholeHasNoJson();
    WholeLines();
    InsideLine();
    LinesOfText(WHOLE);
    FourLines("{", BEGIN, "", END);
    assert "{" + ("\n" + BEGIN) + ("\n" + "") + ("\n" + END) == "{" + LEFT;
    assert LEFT[|LEFT| - 1] == END[1] == ',';
  }

  lemma LeftHoldsJson()
    ensures StripJson(LEFT) != LEFT && StripJson("{" + LEFT) != "{" + LEFT
  {
    ValueEnds("\n\n", ",");
    assert LEFT == "\n" + (BEGIN + ("\n\n" + (QUOTE + ",")));
    JsonMatchInk(LEFT);
    StripJsonInk(JsonMatch(LEFT).value.rest);
    LineHasNoJson("{", LEFT);
    if StripJson("{" + LEFT) == "{" + LEFT { SameBack("{", StripJson(LEFT), LEFT); }
  }

  lemma SameBack(a: string, b: string, c: string)
    requires a + b == a + c
    ensures b == c
  {
    assert (a + b)[|a|..] == b && (a + c)[|a|..] == c;
  }

  /** So its marked file, in the comment form and in the view form, does not strip back to the stripped
      content, and stamping it anew is not stamping the content. */
  lemma MarkerIsLeft(uid: string, other: string)
    requires Writable(uid) && Writable(other)
    ensures StripLocalID(InjectLocalID(WHOLE, uid, "MARKDOWN")) != StripLocalID(WHOLE)
    ensures StripLocalID(InjectLocalID(WHOLE, uid, "VIEW")) != StripLocalID(WHOLE)
    ensures InjectLocalID(InjectLocalID(WHOLE, uid, "VIEW"), other, "VIEW") != InjectLocalID(WHOLE, other, "VIEW")
  {
    WholeIsStripped();
    LeftHoldsJson();
    WholeHasNoManifest();
    CommentRoundTrip(WHOLE, uid, other, "MARKDOWN");
    PlaceOfLeft();
    ViewRoundTrip(WHOLE, uid, other, "VIEW");
  }

  lemma WholeHasNoManifest()
    ensures ExtractManifest(WHOLE) == ""
  {
    WholeLines();
  }

  lemma PlaceOfLeft()
    ensures BracePlace("{" + LEFT) == Some(1) && ("{" + LEFT)[1..] == LEFT
  {
    assert ("{" + LEFT)[0] == '{' && "---\n"[0] == '-';
    assert !("---\n" <= "{" + LEFT);
    assert ("{" + LEFT)[0..] == "{" + LEFT;
    assert "{" <= "{" + LEFT;
  }
}
