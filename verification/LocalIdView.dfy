/** The marker of a view: the first key of its JSON object. */
module LocalIdView {
  import opened Lists
  import opened Options
  import opened Strings
  import opened LocalId
  import opened LocalIdText
  import opened LocalIdLines
  import opened LocalIdRoundTrip

  lemma {:induction false} QuotedEnds(x: string, y: string)
    requires '"' !in x
    ensures UntilQuote(x + ("\"" + y)) == Some(Match(x, y))
  {
    var s := x + ("\"" + y);
    if x == "" {
      assert s == "\"" + y && s[1..] == y;
    } else {
      assert x[0] in x && forall c | c in x[1..] :: c in x;
      assert s[1..] == x[1..] + ("\"" + y);
      QuotedEnds(x[1..], y);
      assert [x[0]] + x[1..] == x;
    }
  }

  /** The marker behind its newline, in parts. */
  function Key(uid: string): string {
    "  " + ("\"" + KEY + "\"" + (":" + (" " + ("\"" + ("memos/" + uid + ("\"" + ","))))))
  }

  lemma MarkerParts(uid: string)
    ensures LocalIDJSON(uid) == "\n" + Key(uid)
  {
    assert "\n  \"" == "\n" + "  " + "\"";
    assert "\": \"memos/" == "\"" + ":" + " " + "\"" + "memos/" && "\"," == "\"" + ",";
  }

  /** A written JSON marker is read and taken off, whatever stands behind. */
  lemma MarkerReadsBack(uid: string, q: string)
    requires Writable(uid)
    ensures JsonMatch(LocalIDJSON(uid) + q) == Some(Match(uid, q))
  {
    var g := "," + q;
    MarkerHeadReads(uid, q);
    assert '"' !in "memos/" + uid by { assert forall c | c in uid :: c != '"'; }
    QuotedEnds("memos/" + uid, g);
    SkipOne(g);
    EatFront(",", q);
    assert WithoutPrefix("memos/", "memos/" + uid) == uid;
  }

  lemma MarkerHeadReads(uid: string, q: string)
    ensures JsonHead(LocalIDJSON(uid) + q) == Some("memos/" + uid + ("\"" + ("," + q)))
  {
    var f := "memos/" + uid + ("\"" + ("," + q));
    var e := "\"" + f;
    var d := ":" + (" " + e);
    var b := "\"" + KEY + "\"" + d;
    MarkerParts(uid);
    assert LocalIDJSON(uid) + q == "\n" + ("  " + b);
    EatFront("\n", "  " + b);
    SkipTwo(b);
    EatFront("\"" + KEY + "\"", d);
    SkipOne(d);
    EatFront(":", " " + e);
    SkipOne(e);
    EatFront("\"", f);
  }

  lemma SkipTwo(s: string)
    requires s != "" && !Blank(s[0])
    ensures Skip("  " + s) == s
  {
    assert ("  " + s)[1..] == " " + s;
    SkipOne(s);
  }

  lemma MarkerIsStub(uid: string, q: string)
    requires Writable(uid)
    ensures Stub(LocalIDJSON(uid) + q)
  {
    var t := LocalIDJSON(uid) + q;
    var rest := KEY + ("\": \"memos/" + uid + "\"," + q);
    assert "\n  \"" == "\n  " + "\"";
    assert t == "\n  " + ("\"" + rest);
    QuotedEnds("\n  ", rest);
    SkipOne(rest);
    assert rest[0] == 'm' && !("," <= rest);
  }

  /** A view marked at a place is stripped on both sides of the place. */
  lemma MarkedStrips(p: string, uid: string, q: string)
    requires Writable(uid)
    ensures StripJson(p + (LocalIDJSON(uid) + q)) == StripJson(p) + StripJson(q)
    ensures FirstJson(p + (LocalIDJSON(uid) + q)) == if FirstJson(p).Some? then FirstJson(p) else Some(uid)
  {
    MarkerIsStub(uid, q);
    MarkerReadsBack(uid, q);
    StripJsonTail(p, LocalIDJSON(uid) + q);
  }

  // No line of a marked view is a comment marker.

  predicate EndsInBrace(s: string) { s != "" && s[|s| - 1] == '{' }

  lemma {:induction false} SkipKeepsEnd(s: string)
    requires EndsInBrace(s)
    ensures EndsInBrace(Skip(s))
  {
    if Blank(s[0]) { SkipKeepsEnd(s[1..]); }
  }

  lemma SkipEatKeepsEnd(literal: string, s: Option<string>)
    requires s.Some? ==> EndsInBrace(s.value)
    requires literal != "" && literal[|literal| - 1] != '{'
    ensures SkipEat(literal, s).Some? ==> EndsInBrace(SkipEat(literal, s).value)
  {
    if s.Some? { SkipKeepsEnd(s.value); }
  }

  lemma {:induction false} AfterWordKeepsEnd(s: string)
    requires EndsInBrace(s) || s == ""
    ensures EndsInBrace(AfterWord(s)) || AfterWord(s) == ""
  {
    if s != "" && !White(s[0]) && s[0] != '>' { AfterWordKeepsEnd(s[1..]); }
  }

  lemma BraceIsNoComment(line: string)
    requires EndsInBrace(line)
    ensures CommentUid(line) == None
  {
    var a := SkipEat("<!--", Some(line));
    SkipEatKeepsEnd("<!--", Some(line));
    SkipEatKeepsEnd(KEY, a);
    SkipEatKeepsEnd(":", SkipEat(KEY, a));
    var head := SkipEat(":", SkipEat(KEY, a));
    if head.Some? {
      SkipKeepsEnd(head.value);
      var rest := WithoutPrefix("memos/", Skip(head.value));
      AfterWordKeepsEnd(rest);
      var after := AfterWord(rest);
      BraceIsNoEnd(after);
    }
  }

  lemma BraceIsNoEnd(after: string)
    requires EndsInBrace(after) || after == ""
    ensures after != "" && after[0] == '>' ==> !Blanks(after[1..])
    ensures SkipEat("-->", Some(after)).Some? ==> !Blanks(SkipEat("-->", Some(after)).value)
  {
    if after != "" {
      SkipEatKeepsEnd("-->", Some(after));
      assert after[0] == '>' ==> EndsInBrace(after[1..]);
      assert forall s | EndsInBrace(s) :: s[|s| - 1] in s && !Blank(s[|s| - 1]);
    } else {
      assert Skip(after) == "";
    }
  }

  lemma KeyIsNoComment(uid: string, rest: string)
    ensures CommentUid(Key(uid) + rest) == None
  {
    var b := "\"" + KEY + "\"" + (":" + (" " + ("\"" + ("memos/" + uid + ("\"" + ","))))) + rest;
    assert Key(uid) + rest == "  " + b;
    SkipTwo(b);
    assert b[0] == '"' && !("<!--" <= b);
  }

  lemma {:induction false} LastLineEnds(p: string)
    requires EndsInBrace(p)
    ensures EndsInBrace(Lines(p)[|Lines(p)| - 1])
  {
    if |p| == 1 {
      assert p == "{" && Lines(p) == ["{"] by { SplitNone(p, '\n'); }
    } else {
      LastLineEnds(p[1..]);
    }
  }

  /** The lines of a marked view: its own, but for the one cut in two at the brace. */
  lemma MarkedLines(p: string, uid: string, q: string)
    requires Writable(uid)
    ensures Lines(p + (LocalIDJSON(uid) + q)) == Lines(p) + ([Key(uid) + Lines(q)[0]] + Lines(q)[1..])
  {
    MarkerBreaksLine(p, uid, q);
    SplitAround(p, Key(uid) + q, '\n');
    LinesGlue(Key(uid), q);
    KeyIsOneLine(uid);
    GlueOne(Key(uid), Lines(q));
  }

  lemma MarkerBreaksLine(p: string, uid: string, q: string)
    ensures p + (LocalIDJSON(uid) + q) == p + ['\n'] + (Key(uid) + q)
  {
    MarkerParts(uid);
    Assoc(['\n'], Key(uid), q);
    Assoc(p, ['\n'], Key(uid) + q);
  }

  lemma KeyIsOneLine(uid: string)
    requires Writable(uid)
    ensures Lines(Key(uid)) == [Key(uid)]
  {
    assert '\n' !in Key(uid) by { assert forall c | c in uid :: !White(c); assert White('\n'); }
    SplitNone(Key(uid), '\n');
  }

  lemma GlueOne(l: string, b: seq<string>)
    requires b != []
    ensures Glue([l], b) == [l + b[0]] + b[1..]
  {
    assert [l][..0] == [];
  }

  lemma MarkedHasNoComment(p: string, uid: string, q: string)
    requires Writable(uid) && EndsInBrace(p) && NoneWhere(IsComment, Lines(p + q))
    ensures NoneWhere(IsComment, Lines(p + (LocalIDJSON(uid) + q)))
  {
    var a, b := Lines(p), Lines(q);
    var n := |a| - 1;
    MarkedLines(p, uid, q);
    LinesGlue(p, q);
    assert forall l | l in a[..n] || l in b[1..] :: l in Glue(a, b);
    LastLineEnds(p);
    BraceIsNoComment(a[n]);
    assert a == a[..n] + [a[n]];
    KeyIsNoComment(uid, b[0]);
  }

  /** A view's stripped content, cut at the place of its marker, and the marked file. */
  predicate Cut(content: string, p: string, q: string) {
    var at := BracePlace(StripLocalID(content));
    at.Some? && p == StripLocalID(content)[..at.value] && q == StripLocalID(content)[at.value..]
  }

  lemma CutFile(content: string, p: string, q: string, uid: string, docType: string)
    requires Cut(content, p, q) && uid != "" && IsView(docType)
    ensures StripLocalID(content) == p + q && EndsInBrace(p)
    ensures InjectLocalID(content, uid, docType) == p + (LocalIDJSON(uid) + q)
  {
    Parts(StripLocalID(content), BracePlace(StripLocalID(content)).value);
    Assoc(p, LocalIDJSON(uid), q);
  }

  /** The uid of the file is the marker's, or that of a JSON marker left in front of it. */
  lemma ViewCarries(content: string, p: string, q: string, uid: string)
    requires Cut(content, p, q) && Writable(uid)
    ensures ParseLocalID(p + (LocalIDJSON(uid) + q))
        == if FirstJson(p).Some? then TrimSpace(FirstJson(p).value) else uid
  {
    WritableIsTrim(uid);
    CutFile(content, p, q, uid, "VIEW");
    StrippedIsBare(content);
    MarkedHasNoComment(p, uid, q);
    NoFirstComment(Lines(p + (LocalIDJSON(uid) + q)));
    MarkedStrips(p, uid, q);
  }

  /** Stripping the file gives the stripped content, or costs more ink. */
  lemma ViewStrips(content: string, p: string, q: string, uid: string)
    requires Cut(content, p, q) && Writable(uid)
    ensures var body, back := p + q, StripLocalID(p + (LocalIDJSON(uid) + q));
      if StripJson(p) == p && StripJson(q) == q then back == body else Ink(back) < Ink(body)
  {
    CutFile(content, p, q, uid, "VIEW");
    StrippedIsBare(content);
    MarkedStrips(p, uid, q);
    StripJsonInk(p);
    StripJsonInk(q);
    BareStripsToItself(p + q);
    InkConcat(p, q);
    InkConcat(StripJson(p), StripJson(q));
    StripInk(StripJson(p) + StripJson(q));
  }

  lemma InjectedInk(body: string, uid: string)
    ensures Ink(InjectJSONLocalID(body, uid)) <= Ink(body) + Ink(LocalIDJSON(uid))
    ensures BracePlace(body).Some? ==> Ink(InjectJSONLocalID(body, uid)) == Ink(body) + Ink(LocalIDJSON(uid))
  {
    if BracePlace(body).Some? {
      var p, q := body[..BracePlace(body).value], body[BracePlace(body).value..];
      Parts(body, |p|);
      InkConcat(p, q);
      InkConcat(p, LocalIDJSON(uid));
      InkConcat(p + LocalIDJSON(uid), q);
    }
  }

  /** The view form, for every content with an object. The file carries the uid exactly when no other uid
      stands in a JSON marker in front of the place; stripping it gives the stripped content, and stamping
      it anew is stamping the content, exactly when no JSON marker is left in front of the place nor
      behind it. */
  lemma ViewRoundTrip(content: string, uid: string, other: string, docType: string)
    requires Writable(uid) && Writable(other) && IsView(docType)
    requires BracePlace(StripLocalID(content)).Some?
    ensures var body, file := StripLocalID(content), InjectLocalID(content, uid, docType);
      var at := BracePlace(body).value;
      var bare := StripJson(body[..at]) == body[..at] && StripJson(body[at..]) == body[at..];
      && (ParseLocalID(file) == uid <==>
            FirstJson(body[..at]).None? || TrimSpace(FirstJson(body[..at]).value) == uid)
      && (StripLocalID(file) == body <==> bare)
      && (InjectLocalID(file, other, docType) == InjectLocalID(content, other, docType) <==> bare)
  {
    var body := StripLocalID(content);
    var p, q := body[..BracePlace(body).value], body[BracePlace(body).value..];
    var file := p + (LocalIDJSON(uid) + q);
    CutFile(content, p, q, uid, docType);
    ViewCarries(content, p, q, uid);
    ViewStrips(content, p, q, uid);
    InjectedInk(StripLocalID(file), other);
    InjectedInk(body, other);
  }

  /** A content without an object is only stripped. */
  lemma NoObjectIsLeftAlone(content: string, uid: string, docType: string)
    requires uid != "" && IsView(docType) && BracePlace(StripLocalID(content)).None?
    ensures InjectLocalID(content, uid, docType) == StripLocalID(content)
  {
  }

  lemma SkipEatGrows(literal: string, s: Option<string>, t: string)
    requires literal != "" && !Blank(literal[0]) && SkipEat(literal, s).Some?
    ensures SkipEat(literal, Behind(s, t)) == Behind(SkipEat(literal, s), t)
  {
    SkipGrows(s.value, t);
    assert (Skip(s.value) + t)[|literal|..] == Skip(s.value)[|literal|..] + t;
  }

  lemma {:induction false} SkipGrows(s: string, t: string)
    requires Skip(s) != ""
    ensures Skip(s + t) == Skip(s) + t
  {
    FrontOfBoth(s, t);
    if Blank(s[0]) { SkipGrows(s[1..], t); }
  }

  lemma JsonMatchGrows(s: string, t: string)
    requires JsonMatch(s).Some?
    ensures JsonMatch(s + t).Some?
  {
    var a := Eat("\n", s);
    var key := "\"" + KEY + "\"";
    assert Eat("\n", s + t) == Behind(a, t) by { FrontOfBoth(s, t); }
    SkipEatGrows(key, a, t);
    SkipEatGrows(":", SkipEat(key, a), t);
    SkipEatGrows("\"", SkipEat(":", SkipEat(key, a)), t);
    var h := JsonHead(s).value;
    UntilQuoteTail(h, t);
    SkipEatGrows(",", Some(UntilQuote(h).value.rest), t);
  }

  /** Parts of a text without JSON markers have none. */
  lemma {:induction false} PartsHaveNoJson(p: string, q: string)
    requires StripJson(p + q) == p + q
    ensures StripJson(p) == p && StripJson(q) == q
  {
    if p == "" {
      assert p + q == q;
    } else {
      var s := p + q;
      assert s[1..] == p[1..] + q;
      if JsonMatch(p).Some? { JsonMatchGrows(p, q); }
      StripJsonInk(s);
      if JsonMatch(s).Some? {
        JsonMatchInk(s);
        StripJsonInk(JsonMatch(s).value.rest);
      } else {
        assert StripJson(s)[1..] == StripJson(s[1..]);
        PartsHaveNoJson(p[1..], q);
        assert [p[0]] + p[1..] == p;
      }
    }
  }

  /** For a content that stripping only takes newlines off, the view form makes a perfect round trip
      when there is an object, and leaves the content alone when there is none. */
  lemma PlainViewRoundTrip(content: string, uid: string, other: string, docType: string)
    requires Writable(uid) && Writable(other) && IsView(docType)
    requires StripLocalID(content) == TrimNewlines(content)
    ensures var file := InjectLocalID(content, uid, docType);
      if BracePlace(TrimNewlines(content)).None? then file == TrimNewlines(content)
      else
        && ParseLocalID(file) == uid
        && StripLocalID(file) == TrimNewlines(content)
        && InjectLocalID(file, other, docType) == InjectLocalID(content, other, docType)
  {
    var place := BracePlace(StripLocalID(content));
    if place.Some? {
      PlainHasNoJson(content, place.value);
      ViewRoundTrip(content, uid, other, docType);
    } else {
      NoObjectIsLeftAlone(content, uid, docType);
    }
  }

  lemma PlainHasNoJson(content: string, at: nat)
    requires StripLocalID(content) == TrimNewlines(content) && at <= |TrimNewlines(content)|
    ensures var body := TrimNewlines(content);
      StripJson(body[..at]) == body[..at] && StripJson(body[at..]) == body[at..] && FirstJson(body[..at]) == None
  {
    var body := TrimNewlines(content);
    PlainContentIsStable(content);
    Parts(body, at);
    PartsHaveNoJson(body[..at], body[at..]);
    StripJsonInk(body[..at]);
  }
}
