/** What is written into a file is read back from it, and taken off again. */
module LocalIdRoundTrip {
  import opened Options
  import opened Strings
  import opened LocalId
  import opened LocalIdText
  import opened LocalIdLines

  /** A uid that survives both encodings: a word without quotes and backslashes. The server's uids are
      letters, digits and dashes. */
  predicate Writable(uid: string) {
    uid != "" && forall c | c in uid :: !Space(c) && c != '>' && c != '"' && c != '\\'
  }

  /** Such a uid is read as it stands. */
  lemma WritableIsTrim(uid: string)
    requires Writable(uid)
    ensures TrimSpace(uid) == uid
  {
    assert uid[0] in uid && uid[|uid| - 1] in uid;
  }

  // The comment form.

  lemma {:induction false} WordEnds(uid: string, tail: string)
    requires forall c | c in uid :: !White(c) && c != '>'
    requires tail != "" && White(tail[0])
    ensures Word(uid + tail) == uid && AfterWord(uid + tail) == tail
  {
    if uid == "" {
      assert uid + tail == tail;
    } else {
      assert uid[0] in uid && (uid + tail)[1..] == uid[1..] + tail;
      WordEnds(uid[1..], tail);
      assert [uid[0]] + uid[1..] == uid;
    }
  }

  lemma EatFront(literal: string, s: string)
    ensures Eat(literal, literal + s) == Some(s)
  {
  }

  lemma SkipOne(s: string)
    requires s != "" && !Blank(s[0])
    ensures Skip(" " + s) == s && Skip(s) == s
  {
    assert (" " + s)[1..] == s;
  }

  /** The parts of a comment marker. */
  lemma CommentParts(uid: string)
    ensures LocalIDComment(uid) == "<!--" + (" " + (KEY + (":" + (" " + ("memos/" + (uid + " -->"))))))
  {
    assert "<!-- " == "<!--" + " ";
    assert ": memos/" == ":" + " " + "memos/";
  }

  /** A written comment marker reads back as its uid, which need only be a word. */
  lemma CommentReadsBack(uid: string)
    requires forall c | c in uid :: !White(c) && c != '>'
    ensures CommentUid(LocalIDComment(uid)) == Some(uid)
  {
    var line, f := LocalIDComment(uid), uid + " -->";
    var e := "memos/" + f;
    CommentParts(uid);
    CommentHeadReads(line, e);
    SkipOne(e);
    assert WithoutPrefix("memos/", e) == f;
    WordEnds(uid, " -->");
    CommentEndReads();
  }

  lemma CommentHeadReads(line: string, e: string)
    requires line == "<!--" + (" " + (KEY + (":" + (" " + e))))
    ensures SkipEat(":", SkipEat(KEY, SkipEat("<!--", Some(line)))) == Some(" " + e)
  {
    var d := ":" + (" " + e);
    var b := KEY + d;
    SkipOne(line);
    EatFront("<!--", " " + b);
    SkipOne(b);
    EatFront(KEY, d);
    SkipOne(d);
    EatFront(":", " " + e);
  }

  lemma CommentEndReads()
    ensures SkipEat("-->", Some(" -->")) == Some("") && Blanks("")
  {
    SkipOne("-->");
    assert " -->" == " " + "-->" && "-->" == "-->" + "";
    EatFront("-->", "");
  }

  lemma CommentIsOneLine(uid: string)
    requires Writable(uid)
    ensures Lines(LocalIDComment(uid)) == [LocalIDComment(uid)]
    ensures '"' !in LocalIDComment(uid) && '\n' !in LocalIDComment(uid)
  {
    assert '\n' !in uid by { assert White('\n'); }
    SplitNone(LocalIDComment(uid), '\n');
  }

  lemma CommentIsOrdinary(uid: string)
    ensures !ManifestHead(LocalIDComment(uid)) && !CloseLine(LocalIDComment(uid))
  {
    var line := LocalIDComment(uid);
    var b := KEY + (":" + (" " + ("memos/" + (uid + " -->"))));
    CommentParts(uid);
    SkipOne(line);
    EatFront("<!--", " " + b);
    SkipOne(b);
    assert b[8] == KEY[8] == 'i' && MANIFEST_KEY[8] == 'a';
    assert !(MANIFEST_KEY <= b);
    assert line[0] == '<' && !("-->" <= line);
  }

  /** The tail the comment form puts behind a body. */
  function Tail(uid: string): string { "\n\n" + LocalIDComment(uid) }

  lemma TailIsStub(uid: string)
    requires Writable(uid)
    ensures Stub(Tail(uid)) && StripJson(Tail(uid)) == Tail(uid) && FirstJson(Tail(uid)) == None
  {
    CommentIsOneLine(uid);
    var t := Tail(uid);
    assert '"' !in t;
    QuotelessHasNoJson(t);
    NoQuoteInside(t);
  }

  lemma {:induction false} NoQuoteInside(s: string)
    requires '"' !in s
    ensures UntilQuote(s) == None
  {
    if s != "" {
      assert s[0] in s && forall c | c in s[1..] :: c in s;
      NoQuoteInside(s[1..]);
    }
  }

  lemma TailLines(s: string, uid: string)
    requires Writable(uid)
    ensures Lines(s + Tail(uid)) == Lines(s) + ["", LocalIDComment(uid)]
  {
    var c := LocalIDComment(uid);
    CommentIsOneLine(uid);
    assert s + Tail(uid) == s + ['\n'] + ("" + ['\n'] + c);
    SplitAround(s, "" + ['\n'] + c, '\n');
    SplitAround("", c, '\n');
    assert Split("", '\n') == [""];
    assert [""] + [c] == ["", c];
  }

  /** What the passes behind the JSON pass make of a text. */
  function StripLines(s: string): string {
    TrimNewlines(Unlines(BlankComments(Lines(Unlines(BlankManifests(Lines(s)))))))
  }

  lemma BlankedLines(s: string)
    ensures Lines(Unlines(BlankManifests(Lines(s)))) == BlankManifests(Lines(s))
  {
    LinesOfText(s);
    EmptyLine();
    BlankedHasNoBlock(ManifestHead, CloseLine, Lines(s));
    TextOfLines(BlankManifests(Lines(s)));
  }

  /** Blanking the comments of lines with a marker behind them, and trimming what is left. */
  lemma MarkerLineGoes(m: seq<string>, c: string)
    requires m != [] && IsComment(c)
    ensures TrimNewlines(Unlines(BlankComments(m + ["", c]))) == TrimNewlines(Unlines(BlankComments(m)))
  {
    var b := BlankComments(m);
    EmptyLine();
    BlankWhereConcat(IsComment, m, ["", c]);
    LastBlanked(c);
    UnlinesConcat(b, ["", ""]);
    assert BlankComments(m + ["", c]) == b + ["", ""];
    TrimTwo(Unlines(b));
    assert Unlines(b) + "\n" + "\n" == Unlines(b) + "\n\n";
  }

  lemma LastBlanked(c: string)
    requires IsComment(c) && !IsComment("")
    ensures BlankComments(["", c]) == ["", ""] && Unlines(["", ""]) == "\n"
  {
    assert ["", c][1..] == [c] && [c][1..] == [] && BlankComments([c]) == [""];
    assert ["", ""][1..] == [""] && Unlines([""]) == "" && Unlines(["", ""]) == "" + ['\n'] + Unlines([""]);
  }

  /** Those passes take the tail off. */
  lemma StripLinesTail(s: string, uid: string)
    requires Writable(uid)
    ensures StripLines(s + Tail(uid)) == StripLines(s)
  {
    var c := LocalIDComment(uid);
    EmptyLine();
    CommentIsOrdinary(uid);
    CommentReadsBack(uid);
    TailLines(s, uid);
    BlankBlocksTail(ManifestHead, CloseLine, Lines(s), ["", c]);
    BlankedLines(s);
    BlankedLines(s + Tail(uid));
    BlankedHasNoBlock(ManifestHead, CloseLine, Lines(s));
    MarkerLineGoes(BlankManifests(Lines(s)), c);
  }

  /** Taking the marker off a marked file is taking it off the body once more, for every body. */
  lemma StripTakesTheTailOff(body: string, uid: string)
    requires Writable(uid)
    ensures StripLocalID(body + Tail(uid)) == StripLocalID(body)
  {
    TailIsStub(uid);
    StripJsonTail(body, Tail(uid));
    StripLinesTail(StripJson(body), uid);
  }

  /** What stripping leaves has no comment marker, no manifest and no newline at its end. */
  lemma StrippedIsBare(content: string)
    ensures var body := StripLocalID(content);
      NoneWhere(IsComment, Lines(body)) && NoBlock(ManifestHead, CloseLine, Lines(body)) && TrimNewlines(body) == body
  {
    var s := StripJson(content);
    var m := BlankManifests(Lines(s));
    var b := BlankComments(m);
    BlankedLines(s);
    EmptyLine();
    BlankedHasNoBlock(ManifestHead, CloseLine, Lines(s));
    BlankedWhereHasNoBlock(IsComment, ManifestHead, CloseLine, m);
    BlankedWhere(IsComment, m);
    LinesOfText(s);
    forall l | l in b ensures '\n' !in l {
      var k :| 0 <= k < |b| && b[k] == l;
      assert m[k] in m;
    }
    TextOfLines(b);
    TrimTakesLines(Unlines(b));
    var k :| 0 < k <= |b| && Lines(TrimNewlines(Unlines(b))) == b[..k];
    FrontLines(IsComment, ManifestHead, CloseLine, b, k);
  }

  lemma BareStripsToItself(s: string)
    requires NoneWhere(IsComment, Lines(s)) && NoBlock(ManifestHead, CloseLine, Lines(s)) && TrimNewlines(s) == s
    ensures StripLines(s) == s
  {
    EmptyLine();
    NothingToBlank(ManifestHead, CloseLine, Lines(s));
    LinesOfText(s);
    BlankedWhere(IsComment, Lines(s));
  }

  lemma StripInk(s: string)
    ensures Ink(StripLines(s)) <= Ink(s)
    ensures Ink(StripLines(s)) == Ink(s) ==> ExtractManifest(s) == ""
  {
    var m := BlankManifests(Lines(s));
    LinesOfText(s);
    BlankedLines(s);
    UnlinesInk(Lines(s));
    forall l | l in Lines(s) && ManifestHead(l) ensures Ink(l) > 0 { HeadHasInk(l); }
    BlankBlocksInk(ManifestHead, CloseLine, Lines(s));
    BlankWhereInk(IsComment, m);
    UnlinesInk(BlankComments(m));
    TrimInk(Unlines(BlankComments(m)));
  }

  /** Stripping twice is stripping once exactly when stripping leaves no JSON marker. */
  lemma StableIsNoJson(content: string)
    ensures var body := StripLocalID(content);
      StripLocalID(body) == body <==> StripJson(body) == body
  {
    var body := StripLocalID(content);
    StrippedIsBare(content);
    BareStripsToItself(body);
    StripInk(StripJson(body));
    StripJsonInk(body);
  }

  /** The comment form, for every content without a manifest: the file carries the uid; stripping it
      gives the stripped content, and stamping it anew is stamping the content, exactly when the
      stripped content holds no JSON marker. */
  lemma CommentRoundTrip(content: string, uid: string, other: string, docType: string)
    requires Writable(uid) && Writable(other) && !IsView(docType) && ExtractManifest(content) == ""
    ensures var file, body := InjectLocalID(content, uid, docType), StripLocalID(content);
      && ParseLocalID(file) == uid
      && (StripLocalID(file) == body <==> StripJson(body) == body)
      && (InjectLocalID(file, other, docType) == InjectLocalID(content, other, docType) <==> StripJson(body) == body)
  {
    var body := StripLocalID(content);
    var file := body + Tail(uid);
    FileCarries(content, uid);
    StripTakesTheTailOff(body, uid);
    StableIsNoJson(content);
    FileHasNoManifest(content, uid);
    InjectIsTail(content, uid, docType);
    InjectIsTail(content, other, docType);
    InjectIsTail(file, other, docType);
    SameFront(StripLocalID(file), body, Tail(other));
  }

  lemma InjectIsTail(content: string, uid: string, docType: string)
    requires uid != "" && !IsView(docType) && ExtractManifest(content) == ""
    ensures InjectLocalID(content, uid, docType) == StripLocalID(content) + Tail(uid)
  {
    BodyAndTail(StripLocalID(content), LocalIDComment(uid));
  }

  lemma BodyAndTail(body: string, c: string)
    ensures body + "\n\n" + "" + c == body + ("\n\n" + c)
  {
  }

  lemma FileCarries(content: string, uid: string)
    requires Writable(uid)
    ensures ParseLocalID(StripLocalID(content) + Tail(uid)) == uid
  {
    var body, c := StripLocalID(content), LocalIDComment(uid);
    StrippedIsBare(content);
    TailLines(body, uid);
    FirstCommentBehind(Lines(body), ["", c]);
    CommentReadsBack(uid);
    WritableIsTrim(uid);
    EmptyLine();
    assert ["", c][1..] == [c] && FirstComment([c]) == Some(uid);
  }

  lemma SameFront(a: string, b: string, t: string)
    ensures a + t == b + t <==> a == b
  {
    if a + t == b + t {
      assert |a| == |b|;
      assert (a + t)[..|a|] == a && (b + t)[..|b|] == b;
    }
  }

  lemma FileHasNoManifest(content: string, uid: string)
    requires Writable(uid)
    ensures ExtractManifest(StripLocalID(content) + Tail(uid)) == ""
  {
    var body, c := StripLocalID(content), LocalIDComment(uid);
    StrippedIsBare(content);
    TailLines(body, uid);
    CommentIsOrdinary(uid);
    EmptyLine();
    BlankBlocksTail(ManifestHead, CloseLine, Lines(body), ["", c]);
    NothingToBlank(ManifestHead, CloseLine, Lines(body));
    forall l | l in ["", c] ensures !CloseLine(l) {}
    FirstBlockTail(Lines(body), ["", c]);
  }

  lemma {:induction false} FirstBlockTail(lines: seq<string>, tail: seq<string>)
    requires NoBlock(ManifestHead, CloseLine, lines)
    requires NoneWhere(ManifestHead, tail) && NoneWhere(CloseLine, tail)
    ensures FirstBlock(ManifestHead, CloseLine, lines + tail) == ""
  {
    var all := lines + tail;
    forall i, j | 0 <= i < j < |all| ensures ManifestHead(all[i]) ==> !CloseLine(all[j]) {
      if j < |lines| {
        assert ManifestHead(lines[i]) ==> !CloseLine(lines[j]);
      } else {
        assert all[j] == tail[j - |lines|] && all[j] in tail;
      }
    }
    NothingToBlank(ManifestHead, CloseLine, all);
  }

  /** A content that stripping only takes newlines off is one of those. */
  lemma PlainContentIsStable(content: string)
    requires StripLocalID(content) == TrimNewlines(content)
    ensures ExtractManifest(content) == ""
    ensures StripJson(StripLocalID(content)) == StripLocalID(content)
  {
    PlainHasNoMarkers(content);
    var body := TrimNewlines(content);
    TrimmedTail(content);
    assert content == body + content[|body|..];
    FrontHasNoJson(body, content[|body|..]);
  }

  lemma PlainHasNoMarkers(content: string)
    requires StripLocalID(content) == TrimNewlines(content)
    ensures StripJson(content) == content && ExtractManifest(content) == ""
  {
    TrimInk(content);
    StripJsonInk(content);
    StripInk(StripJson(content));
  }

  lemma {:induction false} TrimmedTail(s: string)
    ensures |TrimNewlines(s)| <= |s|
    ensures s == TrimNewlines(s) + s[|TrimNewlines(s)|..]
    ensures forall c | c in s[|TrimNewlines(s)|..] :: c == '\n'
  {
    if s != "" && s[|s| - 1] == '\n' {
      var t := s[..|s| - 1];
      TrimmedTail(t);
      var n := |TrimNewlines(s)|;
      assert s[n..] == t[n..] + ['\n'];
    }
  }

  /** Newlines behind a text take no part in its JSON markers. */
  lemma FrontHasNoJson(body: string, newlines: string)
    requires StripJson(body + newlines) == body + newlines
    requires forall c | c in newlines :: c == '\n'
    ensures StripJson(body) == body
  {
    if newlines == "" {
      assert body + newlines == body;
    } else {
      assert newlines[0] in newlines && '"' !in newlines;
      NoQuoteInside(newlines);
      QuotelessHasNoJson(newlines);
      StripJsonTail(body, newlines);
      SameFront(StripJson(body), body, newlines);
    }
  }

  /** For a content that stripping only takes newlines off, the comment form makes a perfect round trip. */
  lemma PlainCommentRoundTrip(content: string, uid: string, other: string, docType: string)
    requires Writable(uid) && Writable(other) && !IsView(docType)
    requires StripLocalID(content) == TrimNewlines(content)
    ensures var file := InjectLocalID(content, uid, docType);
      && ParseLocalID(file) == uid
      && StripLocalID(file) == TrimNewlines(content)
      && InjectLocalID(file, other, docType) == InjectLocalID(content, other, docType)
  {
    PlainContentIsStable(content);
    CommentRoundTrip(content, uid, other, docType);
  }
}
