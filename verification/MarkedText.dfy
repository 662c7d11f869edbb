/** The marker rules of the source as the rules of a checkout, and what they mean for a server text:
    its export shows it exactly when stripping takes nothing but newlines off it. */
module MarkedText {
  import opened Lists
  import opened Options
  import opened Strings
  import opened Checkout
  import opened LocalId
  import opened LocalIdText
  import opened LocalIdLines
  import opened LocalIdRoundTrip
  import opened LocalIdView
  import PullConvergence

  function TypeName(docType: DocType): string {
    match docType
    case Markdown => "MARKDOWN"
    case Html => "HTML"
    case Pdf => "PDF"
    case View => "VIEW"
    case BlogView => "BLOGVIEW"
  }

  /** A stripped text with its marker, and the bytes of the file into which it is written. */
  function WithMarker(docType: DocType, body: string, uid: string): string {
    if IsView(TypeName(docType)) then InjectJSONLocalID(body, uid) else body + Tail(uid)
  }

  function Written(docType: DocType, body: string, uid: string): string {
    TrimNewlines(WithMarker(docType, body, uid)) + "\n"
  }

  /** The text read back from those bytes. */
  function Reread(docType: DocType, body: string): string {
    if IsView(TypeName(docType)) && BracePlace(body).Some? then
      var at := BracePlace(body).value;
      StripLines(StripJson(body[..at]) + StripJson(body[at..]))
    else StripLocalID(body)
  }

  /** How the server's uids are written. A name that no document has is nobody's. */
  datatype Naming = Naming(name: Uid -> string, find: string -> Option<Uid>)
  {
    ghost predicate Valid() { find("") == None && forall u: Uid :: Writable(name(u)) && find(name(u)) == Some(u) }
  }

  /** A checkout whose marker rules are those of the source. */
  function Marking(ws: Workspace, naming: Naming): Workspace {
    ws.(strip := StripLocalID, reread := Reread,
        claim := (t: DocType, body: string, u: Uid) => naming.find(ParseLocalID(Written(t, body, naming.name(u)))))
  }

  // A newline at the end of a file is nobody's.

  lemma NewlineLines(s: string)
    ensures Lines(s + "\n") == Lines(s) + [""]
  {
    assert s + "\n" == s + ['\n'] + "";
    SplitAround(s, "", '\n');
    assert Split("", '\n') == [""];
  }

  lemma NewlineJson(s: string)
    ensures StripJson(s + "\n") == StripJson(s) + "\n" && FirstJson(s + "\n") == FirstJson(s)
  {
    NoQuoteInside("\n");
    QuotelessHasNoJson("\n");
    StripJsonTail(s, "\n");
  }

  lemma NewlineStripLines(s: string)
    ensures StripLines(s + "\n") == StripLines(s)
  {
    var m := BlankManifests(Lines(s));
    EmptyLine();
    NewlineLines(s);
    BlankBlocksTail(ManifestHead, CloseLine, Lines(s), [""]);
    BlankedLines(s);
    BlankedLines(s + "\n");
    BlankWhereConcat(IsComment, m, [""]);
    assert BlankComments([""]) == [""] by { assert [""][1..] == []; }
    BlankedHasNoBlock(ManifestHead, CloseLine, Lines(s));
    var b := BlankComments(m);
    UnlinesConcat(b, [""]);
    TrimOne(Unlines(b));
  }

  lemma TrimOne(s: string)
    ensures TrimNewlines(s + "\n" + "") == TrimNewlines(s)
  {
    assert s + "\n" + "" == s + "\n" && (s + "\n")[..|s|] == s;
  }

  lemma {:induction false} FirstCommentInFront(lines: seq<string>, tail: seq<string>)
    requires NoneWhere(IsComment, tail)
    ensures FirstComment(lines + tail) == FirstComment(lines)
  {
    if lines == [] {
      assert lines + tail == tail;
      NoFirstComment(tail);
    } else {
      assert (lines + tail)[1..] == lines[1..] + tail;
      FirstCommentInFront(lines[1..], tail);
    }
  }

  lemma NewlineReads(s: string)
    ensures StripLocalID(s + "\n") == StripLocalID(s) && ParseLocalID(s + "\n") == ParseLocalID(s)
  {
    NewlineJson(s);
    NewlineStripLines(StripJson(s));
    NewlineLines(s);
    EmptyLine();
    FirstCommentInFront(Lines(s), [""]);
  }

  lemma {:induction false} TrimmedReads(s: string)
    ensures StripLocalID(TrimNewlines(s)) == StripLocalID(s) && ParseLocalID(TrimNewlines(s)) == ParseLocalID(s)
  {
    if s != "" && s[|s| - 1] == '\n' {
      var t := s[..|s| - 1];
      assert t + "\n" == s && TrimNewlines(s) == TrimNewlines(t);
      TrimmedReads(t);
      NewlineReads(t);
    }
  }

  lemma MarkedReads(docType: DocType, body: string, uid: string)
    requires Writable(uid)
    ensures StripLocalID(WithMarker(docType, body, uid)) == Reread(docType, body)
  {
    if !IsView(TypeName(docType)) {
      StripTakesTheTailOff(body, uid);
    } else if BracePlace(body).Some? {
      ViewReads(body, BracePlace(body).value, uid);
    }
  }

  lemma ViewReads(body: string, at: nat, uid: string)
    requires Writable(uid) && at <= |body|
    ensures StripLocalID(body[..at] + LocalIDJSON(uid) + body[at..])
        == StripLines(StripJson(body[..at]) + StripJson(body[at..]))
  {
    MarkedStrips(body[..at], uid, body[at..]);
    Assoc(body[..at], LocalIDJSON(uid), body[at..]);
  }

  /** Reading the bytes gives the same text whatever the uid, and the uid that the marked text carries. */
  lemma WrittenReads(docType: DocType, body: string, uid: string)
    requires Writable(uid)
    ensures StripLocalID(Written(docType, body, uid)) == Reread(docType, body)
    ensures ParseLocalID(Written(docType, body, uid)) == ParseLocalID(WithMarker(docType, body, uid))
  {
    MarkedReads(docType, body, uid);
    TrimmedReads(WithMarker(docType, body, uid));
    NewlineReads(TrimNewlines(WithMarker(docType, body, uid)));
  }

  // What reading back costs.

  lemma {:induction false} BlankWhereSame(kind: string -> bool, lines: seq<string>)
    requires forall l | l in lines && kind(l) :: Ink(l) > 0
    ensures InkOf(BlankWhere(kind, lines)) <= InkOf(lines)
    ensures InkOf(BlankWhere(kind, lines)) == InkOf(lines) ==> BlankWhere(kind, lines) == lines
  {
    if lines != [] {
      var first := if kind(lines[0]) then "" else lines[0];
      assert lines[0] in lines && forall l | l in lines[1..] :: l in lines;
      BlankWhereSame(kind, lines[1..]);
      InkOfConcat([first], BlankWhere(kind, lines[1..]));
      assert [lines[0]] + lines[1..] == lines;
    }
  }

  lemma CommentHasInk(line: string)
    requires IsComment(line)
    ensures Ink(line) > 0
  {
    SkipEatInk("<!--", Some(line));
    assert Ink("<!--") > 0;
  }

  /** The passes behind the JSON pass cost ink, unless they change nothing but newlines at the end. */
  lemma StripLinesSame(s: string)
    ensures Ink(StripLines(s)) <= Ink(s)
    ensures Ink(StripLines(s)) == Ink(s) ==> StripLines(s) == TrimNewlines(s)
  {
    var m := BlankManifests(Lines(s));
    LinesOfText(s);
    BlankedLines(s);
    UnlinesInk(Lines(s));
    forall l | l in Lines(s) && ManifestHead(l) ensures Ink(l) > 0 { HeadHasInk(l); }
    BlankBlocksInk(ManifestHead, CloseLine, Lines(s));
    forall l | l in m && IsComment(l) ensures Ink(l) > 0 { CommentHasInk(l); }
    BlankWhereSame(IsComment, m);
    UnlinesInk(BlankComments(m));
    TrimInk(Unlines(BlankComments(m)));
  }

  lemma StripSame(s: string)
    ensures Ink(StripLocalID(s)) <= Ink(s)
    ensures Ink(StripLocalID(s)) == Ink(s) ==> StripLocalID(s) == TrimNewlines(s)
  {
    StripJsonInk(s);
    StripLinesSame(StripJson(s));
  }

  lemma RereadInk(docType: DocType, body: string)
    ensures Ink(Reread(docType, body)) <= Ink(body)
  {
    StripSame(body);
    if BracePlace(body).Some? {
      var p, q := body[..BracePlace(body).value], body[BracePlace(body).value..];
      Parts(body, |p|);
      InkConcat(p, q);
      InkConcat(StripJson(p), StripJson(q));
      StripJsonInk(p);
      StripJsonInk(q);
      StripLinesSame(StripJson(p) + StripJson(q));
    }
  }

  /** Stripping takes nothing but newlines at the end off the text. */
  predicate Plain(content: string) { StripLocalID(content) == TrimNewlines(content) }

  /** A trimmed plain text is read back as it is. */
  lemma PlainReads(docType: DocType, content: string)
    requires Plain(content)
    ensures Reread(docType, TrimNewlines(content)) == TrimNewlines(content)
  {
    TrimmedReads(content);
    if BracePlace(TrimNewlines(content)).Some? { PlainPartsRead(content, BracePlace(TrimNewlines(content)).value); }
  }

  lemma PlainPartsRead(content: string, at: nat)
    requires Plain(content) && at <= |TrimNewlines(content)|
    ensures var body := TrimNewlines(content); StripLines(StripJson(body[..at]) + StripJson(body[at..])) == body
  {
    var body := TrimNewlines(content);
    PlainHasNoJson(content, at);
    Parts(body, at);
    StrippedIsBare(content);
    BareStripsToItself(body);
  }

  /** Whatever is read back from an export, once or more, is the content only if that is plain. */
  lemma OnlyPlainReads(docType: DocType, content: string, back: string)
    requires Ink(back) <= Ink(StripLocalID(content)) && TrimNewlines(back) == TrimNewlines(content)
    ensures Plain(content)
  {
    TrimInk(back);
    TrimInk(content);
    StripSame(content);
  }

  /** Reading back once, and once more, gives the content exactly if that is plain. */
  lemma RereadIsPlain(docType: DocType, content: string)
    ensures var once := Reread(docType, StripLocalID(content));
      && (TrimNewlines(once) == TrimNewlines(content) <==> Plain(content))
      && (TrimNewlines(Reread(docType, once)) == TrimNewlines(content) <==> Plain(content))
  {
    var once := Reread(docType, StripLocalID(content));
    RereadInk(docType, StripLocalID(content));
    RereadInk(docType, once);
    TrimTakesLines(content);
    if Plain(content) { PlainReads(docType, content); }
    if TrimNewlines(once) == TrimNewlines(content) { OnlyPlainReads(docType, content, once); }
    if TrimNewlines(Reread(docType, once)) == TrimNewlines(content) {
      OnlyPlainReads(docType, content, Reread(docType, once));
    }
  }

  /** With the markers of the source, an exported file or sidecar shows a document's text exactly if
      the text is plain; and so does the file after its marker was put right. */
  lemma ReadableIsPlain(ws: Workspace, naming: Naming, u: Uid, m: Memo)
    requires naming.Valid() && !m.docType.Pdf?
    ensures var marking := Marking(ws, naming);
      && (Readable(marking, m) <==> Plain(m.content))
      && (PullConvergence.Shown(marking, u, m) <==> Plain(m.content))
  {
    var marking := Marking(ws, naming);
    var once := Reread(m.docType, StripLocalID(m.content));
    RereadIsPlain(m.docType, m.content);
    assert BodyOf(marking, m) == once;
    assert Restamped(marking, u, m.docType, FileOf(marking, u, m)).body in {once, Reread(m.docType, once)};
  }

  /** The file of a plain document holds its text and, unless it is a view without an object, its
      marker; putting the marker right changes nothing. */
  lemma PlainFile(ws: Workspace, naming: Naming, u: Uid, m: Memo)
    requires naming.Valid() && !m.docType.Pdf? && Plain(m.content)
    ensures var marking, body := Marking(ws, naming), TrimNewlines(m.content);
      var file := FileOf(marking, u, m);
      && file == File(body, if IsView(TypeName(m.docType)) && BracePlace(body).None? then None else Some(u))
      && Restamped(marking, u, m.docType, file) == file
  {
    var uid := naming.name(u);
    PlainReads(m.docType, m.content);
    WrittenReads(m.docType, StripLocalID(m.content), uid);
    if !IsView(TypeName(m.docType)) {
      FileCarries(m.content, uid);
    } else {
      PlainViewCarries(m.content, uid);
    }
  }

  lemma PlainViewCarries(content: string, uid: string)
    requires Writable(uid) && Plain(content)
    ensures var body := TrimNewlines(content);
      ParseLocalID(InjectJSONLocalID(body, uid)) == if BracePlace(body).Some? then uid else ""
  {
    var body := TrimNewlines(content);
    if BracePlace(body).Some? {
      PlainViewRoundTrip(content, uid, uid, "VIEW");
    } else {
      StrippedIsBare(content);
      NoFirstComment(Lines(body));
      PlainContentIsStable(content);
      StripJsonInk(body);
    }
  }
}
