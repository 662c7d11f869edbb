/** Files that carry an attachment manifest between their text and their marker. */
module LocalIdManifest {
  import opened Lists
  import opened Options
  import opened Strings
  import opened LocalId
  import opened LocalIdText
  import opened LocalIdLines
  import opened LocalIdRoundTrip
  import opened LocalIdCrossing

  /** The lines of a manifest: a head, lines that do not close it, and the line that does. */
  predicate IsManifest(m: seq<string>) {
    && |m| >= 2 && LineText(m) && ManifestHead(m[0]) && CloseLine(m[|m| - 1])
    && forall i | 0 < i < |m| - 1 :: !CloseLine(m[i])
  }

  /** What is extracted from a file is nothing or a manifest. */
  lemma {:induction false} ExtractIsManifest(lines: seq<string>)
    requires LineText(lines)
    ensures FirstBlock(ManifestHead, CloseLine, lines) == ""
         || exists m :: IsManifest(m) && FirstBlock(ManifestHead, CloseLine, lines) == Unlines(m)
  {
    if lines != [] {
      var rest := lines[1..];
      assert lines[0] in lines && forall l | l in rest :: l in lines;
      if Opens(ManifestHead, CloseLine, lines) {
        var k := FirstWhere(CloseLine, rest).value;
        FirstIsFirst(rest);
        assert IsManifest([lines[0]] + rest[..k + 1]);
      } else {
        ExtractIsManifest(rest);
      }
    }
  }

  lemma {:induction false} FirstIsFirst(lines: seq<string>)
    ensures FirstWhere(CloseLine, lines).Some? ==>
      var k := FirstWhere(CloseLine, lines).value; CloseLine(lines[k]) && forall i | 0 <= i < k :: !CloseLine(lines[i])
  {
    if lines != [] && !CloseLine(lines[0]) {
      FirstIsFirst(lines[1..]);
      assert forall i | 0 < i < |lines| :: lines[i] == lines[1..][i - 1];
    }
  }

  /** The lines behind the text: an empty one, the manifest and the marker. */
  function Foot(m: seq<string>, c: string): seq<string> { [""] + (m + [c]) }

  lemma {:induction false} CloseFound(lines: seq<string>, more: seq<string>)
    requires lines != [] && CloseLine(lines[|lines| - 1]) && forall i | 0 <= i < |lines| - 1 :: !CloseLine(lines[i])
    ensures FirstWhere(CloseLine, lines + more) == Some(|lines| - 1)
  {
    FrontOfBoth(lines, more);
    if |lines| > 1 { CloseFound(lines[1..], more); }
  }

  lemma ManifestIsBlanked(m: seq<string>, c: string)
    requires IsManifest(m)
    ensures BlankManifests(m + [c]) == [""] + BlankManifests([c])
    ensures FirstBlock(ManifestHead, CloseLine, m + [c]) == Unlines(m)
  {
    CloseFound(m[1..], [c]);
    FrontOfBoth(m, [c]);
    assert (m[1..] + [c])[|m| - 1..] == [c] && (m[1..] + [c])[..|m| - 1] == m[1..];
    assert m == [m[0]] + m[1..];
  }

  lemma FootIsBlanked(m: seq<string>, c: string)
    requires IsManifest(m) && !ManifestHead(c)
    ensures BlankManifests(Foot(m, c)) == ["", "", c]
    ensures FirstBlock(ManifestHead, CloseLine, Foot(m, c)) == Unlines(m)
  {
    EmptyLine();
    ManifestIsBlanked(m, c);
    assert Foot(m, c)[1..] == m + [c] && Foot(m, c)[0] == "";
    NothingToBlank(ManifestHead, CloseLine, [c]);
    assert [""] + ([""] + [c]) == ["", "", c];
  }

  /** The place where the manifest closes, seen from lines in front of it that do not close. */
  lemma {:induction false} FootCloses(lines: seq<string>, m: seq<string>, c: string)
    requires IsManifest(m) && NoneWhere(CloseLine, lines)
    ensures FirstWhere(CloseLine, lines + Foot(m, c)) == Some(|lines| + |m|)
    ensures (lines + Foot(m, c))[|lines| + |m| + 1..] == [c]
  {
    var all := lines + ([""] + m);
    assert all[|all| - 1] == m[|m| - 1];
    EmptyLine();
    HeadDoesNotClose(m[0]);
    forall i | 0 <= i < |all| - 1 ensures !CloseLine(all[i]) {
      if i < |lines| {
        assert all[i] in lines;
      } else if i > |lines| {
        assert all[i] == m[i - |lines| - 1];
      }
    }
    CloseFound(all, [c]);
    assert lines + Foot(m, c) == all + [c];
  }

  lemma HeadDoesNotClose(line: string)
    requires ManifestHead(line)
    ensures !CloseLine(line)
  {
    var s := Skip(line);
    assert "<!--" <= s && s[0] == "<!--"[0] == '<';
    DashFirst();
  }

  lemma DashFirst()
    ensures forall x: string | "-->" <= x :: x != "" && x[0] == '-'
  {
    assert forall x: string | "-->" <= x :: x[0] == "-->"[0];
  }

  /** Blanking the manifest: behind a text without a head it goes alone; a head takes ink off the text. */
  lemma {:induction false} TextAndManifest(lines: seq<string>, m: seq<string>, c: string) returns (left: seq<string>)
    requires IsManifest(m) && !ManifestHead(c)
    ensures BlankManifests(lines + Foot(m, c)) == left + [c]
    ensures InkOf(left) <= InkOf(lines)
    ensures if NoneWhere(ManifestHead, lines) then left == lines + ["", ""] else InkOf(left) < InkOf(lines)
    decreases |lines|
  {
    if lines == [] {
      FootIsBlanked(m, c);
      assert lines + Foot(m, c) == Foot(m, c) && ["", ""] + [c] == ["", "", c] && [] + ["", ""] == ["", ""];
      return ["", ""];
    }
    var rest := lines[1..];
    FrontOfBoth(lines, Foot(m, c));
    assert lines == [lines[0]] + rest;
    if ManifestHead(lines[0]) {
      HeadHasInk(lines[0]);
      left := HeadTakesInk(lines, m, c);
    } else {
      var more := TextAndManifest(rest, m, c);
      left := [lines[0]] + more;
      Assoc([lines[0]], more, [c]);
      Assoc([lines[0]], rest, ["", ""]);
    }
  }

  /** A head whose block is closed in the text. */
  lemma HeadClosedInText(lines: seq<string>, more: seq<string>)
    requires lines != [] && ManifestHead(lines[0]) && FirstWhere(CloseLine, lines[1..]).Some?
    ensures var k := FirstWhere(CloseLine, lines[1..]).value + 1;
      BlankManifests(lines + more) == [""] + BlankManifests(lines[1..][k..] + more)
  {
    var rest := lines[1..];
    FrontOfBoth(lines, more);
    FirstInFront(rest, more);
    DropOfBoth(rest, more, FirstWhere(CloseLine, rest).value + 1);
  }

  /** A head whose block the manifest closes. */
  lemma HeadClosedInFoot(lines: seq<string>, m: seq<string>, c: string)
    requires IsManifest(m) && !ManifestHead(c)
    requires lines != [] && ManifestHead(lines[0]) && NoneWhere(CloseLine, lines[1..])
    ensures BlankManifests(lines + Foot(m, c)) == [""] + [c]
  {
    FrontOfBoth(lines, Foot(m, c));
    FootCloses(lines[1..], m, c);
    NothingToBlank(ManifestHead, CloseLine, [c]);
  }

  lemma {:induction false} HeadTakesInk(lines: seq<string>, m: seq<string>, c: string) returns (left: seq<string>)
    requires IsManifest(m) && !ManifestHead(c) && lines != [] && ManifestHead(lines[0]) && Ink(lines[0]) > 0
    ensures BlankManifests(lines + Foot(m, c)) == left + [c]
    ensures InkOf(left) < InkOf(lines)
    decreases |lines|, 0
  {
    var rest := lines[1..];
    FirstWhereFinds(CloseLine, rest);
    if FirstWhere(CloseLine, rest).Some? {
      var k := FirstWhere(CloseLine, rest).value + 1;
      HeadClosedInText(lines, Foot(m, c));
      var more := TextAndManifest(rest[k..], m, c);
      DropInk(rest, k);
      left := [""] + more;
      Assoc([""], more, [c]);
      InkFront("", more);
    } else {
      HeadClosedInFoot(lines, m, c);
      left := [""];
      InkFront("", []);
    }
  }

  lemma {:induction false} FirstInFront(lines: seq<string>, more: seq<string>)
    requires FirstWhere(CloseLine, lines).Some?
    ensures FirstWhere(CloseLine, lines + more) == FirstWhere(CloseLine, lines)
  {
    FrontOfBoth(lines, more);
    if !CloseLine(lines[0]) { FirstInFront(lines[1..], more); }
  }

  // The file.

  function Block(m: seq<string>, uid: string): string { "\n\n" + (Unlines(m) + ("\n" + LocalIDComment(uid))) }

  lemma ManifestIsText(m: seq<string>)
    requires IsManifest(m)
    ensures Unlines(m) != ""
  {
    UnlinesInk(m);
    HeadHasInk(m[0]);
    assert InkOf(m) >= Ink(m[0]) && Ink("") == 0;
  }

  lemma FileIsBlock(content: string, m: seq<string>, uid: string, docType: string)
    requires uid != "" && !IsView(docType) && IsManifest(m)
    ensures InjectMarkers(content, Unlines(m), uid, docType) == StripLocalID(content) + Block(m, uid)
  {
    ManifestIsText(m);
    TextAndBlock(StripLocalID(content), Unlines(m), LocalIDComment(uid));
  }

  lemma TextAndBlock(body: string, man: string, c: string)
    ensures body + "\n\n" + (man + "\n") + c == body + ("\n\n" + (man + ("\n" + c)))
  {
  }

  lemma BlockLines(s: string, m: seq<string>, uid: string)
    requires Writable(uid) && IsManifest(m)
    ensures Lines(s + Block(m, uid)) == Lines(s) + Foot(m, LocalIDComment(uid))
  {
    var c := LocalIDComment(uid);
    CommentIsOneLine(uid);
    TextOfLines(m);
    LinesOfThree(s, Unlines(m), c);
  }

  lemma LinesOfThree(s: string, man: string, c: string)
    ensures Lines(s + ("\n\n" + (man + ("\n" + c)))) == Lines(s) + ([""] + (Lines(man) + Lines(c)))
  {
    var tail := man + ['\n'] + c;
    SplitAround(man, c, '\n');
    SplitAround("", tail, '\n');
    SplitAround(s, "" + ['\n'] + tail, '\n');
    assert Split("", '\n') == [""];
    TwoNewlines(s, man, c);
  }

  lemma TwoNewlines(s: string, man: string, c: string)
    ensures s + ("\n\n" + (man + ("\n" + c))) == s + ['\n'] + ("" + ['\n'] + (man + ['\n'] + c))
  {
  }

  /** The passes behind the JSON pass, over a text with a manifest and a marker behind it. */
  lemma BlockStrips(s: string, m: seq<string>, uid: string)
    requires Writable(uid) && IsManifest(m)
    ensures Ink(StripLines(s + Block(m, uid))) <= Ink(s)
    ensures !NoneWhere(ManifestHead, Lines(s)) ==> Ink(StripLines(s + Block(m, uid))) < Ink(s)
    ensures NoneWhere(ManifestHead, Lines(s)) && NoneWhere(IsComment, Lines(s)) ==>
      StripLines(s + Block(m, uid)) == TrimNewlines(s)
  {
    var c := LocalIDComment(uid);
    CommentIsOrdinary(uid);
    CommentReadsBack(uid);
    BlockLines(s, m, uid);
    var left := TextAndManifest(Lines(s), m, c);
    BlankedLines(s + Block(m, uid));
    BlankWhereConcat(IsComment, left, [c]);
    assert BlankComments([c]) == [""] by { assert [c][1..] == []; }
    LinesOfText(s);
    UnlinesInk(Lines(s));
    UnlinesInk(BlankComments(left) + [""]);
    InkOfConcat(BlankComments(left), [""]);
    BlankWhereInk(IsComment, left);
    TrimInk(Unlines(BlankComments(left) + [""]));
    assert InkOf([""]) == 0;
    if NoneWhere(ManifestHead, Lines(s)) && NoneWhere(IsComment, Lines(s)) { ThreeNewlines(s); }
  }

  lemma ThreeNewlines(s: string)
    requires NoneWhere(IsComment, Lines(s))
    ensures TrimNewlines(Unlines(BlankComments(Lines(s) + ["", ""]) + [""])) == TrimNewlines(s)
  {
    EmptyLine();
    BlankWhereConcat(IsComment, Lines(s), ["", ""]);
    BlankedWhere(IsComment, Lines(s));
    BlankedWhere(IsComment, ["", ""]);
    assert Lines(s) + ["", ""] + [""] == Lines(s) + ["", "", ""];
    UnlinesConcat(Lines(s), ["", "", ""]);
    LinesOfText(s);
    assert ["", "", ""][1..] == ["", ""] && ["", ""][1..] == [""];
    assert Unlines(["", "", ""]) == "\n\n";
    assert s + "\n" + "\n\n" == (s + "\n") + "\n\n";
    TrimTwo(s + "\n");
    assert (s + "\n")[..|s|] == s;
  }

  /** A text and a manifest behind it in which there is no JSON marker, not even one that begins in the text and
      ends at a quote of the manifest. */
  predicate NoJsonBefore(body: string, man: string) {
    var s := body + ("\n\n" + man);
    StripJson(s) == s
  }

  ghost predicate NoHead(body: string) { NoneWhere(ManifestHead, Lines(body)) }

  /** The marker line takes no part in JSON markers. */
  lemma MarkerTakesNoPart(body: string, m: seq<string>, uid: string)
    requires Writable(uid)
    ensures NoJsonBefore(body, Unlines(m)) <==> StripJson(body + Block(m, uid)) == body + Block(m, uid)
  {
    var s, t := body + ("\n\n" + Unlines(m)), "\n" + LocalIDComment(uid);
    CommentIsOneLine(uid);
    QuotelessHasNoJson(t);
    NoQuoteInside(t);
    StripJsonTail(s, t);
    SameFront(StripJson(s), s, t);
    BlockBehind(body, Unlines(m), t);
  }

  lemma BlockBehind(body: string, man: string, t: string)
    ensures body + ("\n\n" + (man + t)) == body + ("\n\n" + man) + t
  {
  }

  lemma BlockIsQuiet(m: seq<string>, uid: string)
    requires Writable(uid) && IsManifest(m) && Quiet(m)
    ensures QuietFrom(Lines(Block(m, uid)), 1)
  {
    var c := LocalIDComment(uid);
    BlockLines("", m, uid);
    assert "" + Block(m, uid) == Block(m, uid) && Lines("") == [""];
    CommentParts(uid);
    SkipOne(c);
    assert c[0] == '<' && !QuoteLine(c) && !QuoteLine("");
    forall l | l in Foot(m, c) ensures !QuoteLine(l) {}
  }

  lemma FileStrips(content: string, m: seq<string>, uid: string)
    requires Writable(uid) && IsManifest(m) && Quiet(m)
    ensures var body := StripLocalID(content);
      StripLocalID(body + Block(m, uid)) == body <==> NoJsonBefore(body, Unlines(m)) && NoHead(body)
  {
    var body, t := StripLocalID(content), Block(m, uid);
    StrippedIsBare(content);
    MarkerTakesNoPart(body, m, uid);
    BlockIsQuiet(m, uid);
    BlockStrips(body, m, uid);
    var front, k := StripsInTwo(body, t);
    if k == 0 {
      assert t[0..] == t;
      BlockStrips(front, m, uid);
    } else {
      CrossedIsLost(body, t, front, k);
    }
  }

  lemma FileParses(content: string, m: seq<string>, uid: string)
    requires Writable(uid) && IsManifest(m)
    ensures ParseLocalID(StripLocalID(content) + Block(m, uid)) == CarriedUid(m, uid)
  {
    var body, c := StripLocalID(content), LocalIDComment(uid);
    StrippedIsBare(content);
    BlockLines(body, m, uid);
    EmptyLine();
    FirstCommentBehind(Lines(body), Foot(m, c));
    assert Foot(m, c)[1..] == m + [c];
    CommentReadsBack(uid);
    WritableIsTrim(uid);
    FirstCommentOfBoth(m, c, uid);
  }

  /** The uid of a file: its own, unless a line of the manifest is itself a marker. */
  function CarriedUid(m: seq<string>, uid: string): string {
    if FirstComment(m).Some? then TrimSpace(FirstComment(m).value) else uid
  }

  lemma {:induction false} FirstCommentOfBoth(m: seq<string>, c: string, uid: string)
    requires CommentUid(c) == Some(uid)
    ensures FirstComment(m + [c]) == if FirstComment(m).Some? then FirstComment(m) else Some(uid)
  {
    if m == [] {
      assert m + [c] == [c];
    } else {
      FrontOfBoth(m, [c]);
      FirstCommentOfBoth(m[1..], c, uid);
    }
  }

  lemma {:induction false} FirstBlockBehind(lines: seq<string>, more: seq<string>)
    requires NoneWhere(ManifestHead, lines)
    ensures FirstBlock(ManifestHead, CloseLine, lines + more) == FirstBlock(ManifestHead, CloseLine, more)
  {
    if lines == [] {
      assert lines + more == more;
    } else {
      FrontOfBoth(lines, more);
      assert lines[0] in lines && forall l | l in lines[1..] :: l in lines;
      FirstBlockBehind(lines[1..], more);
    }
  }

  // The head of a manifest in the text.

  /** The place of the first head in a text that has one. */
  lemma {:induction false} FirstHead(lines: seq<string>) returns (i: nat)
    requires !NoneWhere(ManifestHead, lines)
    ensures i < |lines| && ManifestHead(lines[i]) && NoneWhere(ManifestHead, lines[..i])
    ensures FirstWhere(ManifestHead, lines) == Some(i)
  {
    if ManifestHead(lines[0]) {
      i := 0;
    } else {
      assert lines == [lines[0]] + lines[1..];
      var k := FirstHead(lines[1..]);
      i := k + 1;
      assert lines[..i] == [lines[0]] + lines[1..][..k];
    }
  }

  /** The manifest found behind a head that the text does not close. */
  lemma ClosedByFoot(lines: seq<string>, m: seq<string>, c: string, k: nat)
    requires lines != [] && ManifestHead(lines[0])
    requires FirstWhere(CloseLine, lines[1..] + Foot(m, c)) == Some(k) && k == |lines[1..]| + |m|
    ensures FirstBlock(ManifestHead, CloseLine, lines + Foot(m, c)) == Unlines(lines + ([""] + m))
  {
    CutFoot(lines, m, c);
    OpenBlock(ManifestHead, CloseLine, lines + Foot(m, c), k);
  }

  /** The lines up to the one that closes the manifest. */
  lemma CutFoot(lines: seq<string>, m: seq<string>, c: string)
    requires lines != []
    ensures var all, rest := lines + Foot(m, c), lines[1..];
      && all[0] == lines[0] && all[1..] == rest + Foot(m, c) && |rest| + |m| + 1 <= |all[1..]|
      && [all[0]] + all[1..][..|rest| + |m| + 1] == lines + ([""] + m)
  {
    var rest := lines[1..];
    FrontOfBoth(lines, Foot(m, c));
    BlockUpTo(rest, m, c);
    Assoc([lines[0]], rest, [""] + m);
    assert [lines[0]] + rest == lines;
  }

  lemma BlockUpTo(rest: seq<string>, m: seq<string>, c: string)
    ensures |rest + Foot(m, c)| == |rest| + |m| + 2
    ensures (rest + Foot(m, c))[..|rest| + |m| + 1] == rest + ([""] + m)
  {
    assert rest + Foot(m, c) == rest + ([""] + m) + [c];
  }

  lemma NoCloseBehind(lines: seq<string>, i: nat)
    requires i < |lines| && ManifestHead(lines[i]) && NoBlock(ManifestHead, CloseLine, lines)
    ensures NoneWhere(CloseLine, lines[i..][1..])
  {
    forall j | 0 <= j < |lines[i..][1..]| ensures !CloseLine(lines[i..][1..][j]) {
      assert lines[i..][1..][j] == lines[i + 1 + j];
    }
  }

  /** The manifest found in a file whose text has a head: from that head on. */
  lemma ExtractedFromHead(lines: seq<string>, m: seq<string>, c: string, i: nat)
    requires IsManifest(m) && i < |lines| && ManifestHead(lines[i]) && NoneWhere(ManifestHead, lines[..i])
    requires NoBlock(ManifestHead, CloseLine, lines)
    ensures FirstBlock(ManifestHead, CloseLine, lines + Foot(m, c)) == Unlines(lines[i..] + ([""] + m))
  {
    FootClosesBehind(lines, m, c, i);
    ExtractedAt(lines, m, c, i);
  }

  lemma FootClosesBehind(lines: seq<string>, m: seq<string>, c: string, i: nat)
    requires IsManifest(m) && i < |lines| && ManifestHead(lines[i]) && NoBlock(ManifestHead, CloseLine, lines)
    ensures FirstWhere(CloseLine, lines[i..][1..] + Foot(m, c)) == Some(|lines[i..][1..]| + |m|)
  {
    NoCloseBehind(lines, i);
    FootCloses(lines[i..][1..], m, c);
  }

  lemma ExtractedAt(lines: seq<string>, m: seq<string>, c: string, i: nat)
    requires i < |lines| && ManifestHead(lines[i]) && NoneWhere(ManifestHead, lines[..i])
    requires FirstWhere(CloseLine, lines[i..][1..] + Foot(m, c)) == Some(|lines[i..][1..]| + |m|)
    ensures FirstBlock(ManifestHead, CloseLine, lines + Foot(m, c)) == Unlines(lines[i..] + ([""] + m))
  {
    ClosedByFoot(lines[i..], m, c, |lines[i..][1..]| + |m|);
    FirstBlockBehind(lines[..i], lines[i..] + Foot(m, c));
    Parts(lines, i);
    Assoc(lines[..i], lines[i..], Foot(m, c));
  }

  /** The manifest found in the file: its own exactly when the text has no head. */
  lemma FileExtracts(content: string, m: seq<string>, uid: string)
    requires Writable(uid) && IsManifest(m)
    ensures var body := StripLocalID(content);
      ExtractManifest(body + Block(m, uid)) == Unlines(m) <==> NoHead(body)
  {
    var body, c := StripLocalID(content), LocalIDComment(uid);
    var lines := Lines(body);
    StrippedIsBare(content);
    BlockLines(body, m, uid);
    CommentIsOrdinary(uid);
    if NoHead(body) {
      FirstBlockBehind(lines, Foot(m, c));
      FootIsBlanked(m, c);
    } else {
      var i := FirstHead(lines);
      ExtractedFromHead(lines, m, c, i);
      MoreInk(lines[i..], m);
    }
  }

  lemma MoreInk(lines: seq<string>, m: seq<string>)
    requires lines != [] && ManifestHead(lines[0])
    ensures Ink(Unlines(lines + ([""] + m))) > Ink(Unlines(m))
  {
    HeadHasInk(lines[0]);
    InkOfConcat(lines, [""] + m);
    InkFront("", m);
    UnlinesInk(lines + ([""] + m));
    UnlinesInk(m);
  }

  /** The comment form with a manifest: the file carries the uid, unless a line of the manifest is itself a
      marker. Stripping it gives the stripped content exactly when that has no head of a manifest, which the
      manifest behind it would close, and no JSON marker, not even one that ends at a quote of the manifest.
      The manifest is found again exactly when there is no such head; and then stamping the file anew is
      stamping the content with it exactly when there is no such marker. */
  lemma ManifestRoundTrip(content: string, m: seq<string>, uid: string, other: string, docType: string)
    requires Writable(uid) && Writable(other) && !IsView(docType) && IsManifest(m) && Quiet(m)
    ensures var file, body, man := InjectMarkers(content, Unlines(m), uid, docType), StripLocalID(content), Unlines(m);
      && ParseLocalID(file) == CarriedUid(m, uid)
      && (StripLocalID(file) == body <==> NoJsonBefore(body, man) && NoHead(body))
      && (ExtractManifest(file) == man <==> NoHead(body))
      && (NoHead(body) ==>
            (InjectLocalID(file, other, docType) == InjectMarkers(content, man, other, docType) <==>
                NoJsonBefore(body, man)))
  {
    var body := StripLocalID(content);
    var file := body + Block(m, uid);
    FileIsBlock(content, m, uid, docType);
    FileIsBlock(content, m, other, docType);
    FileStrips(content, m, uid);
    FileParses(content, m, uid);
    FileExtracts(content, m, uid);
    if NoHead(body) {
      FileIsBlock(file, m, other, docType);
      SameFront(StripLocalID(file), body, Block(m, other));
    }
  }

  /** The text in front of the first head, with the newline behind it. */
  function BeforeHead(body: string): string {
    var i := FirstWhere(ManifestHead, Lines(body));
    if i.None? || i.value == 0 then "" else Unlines(Lines(body)[..i.value]) + "\n"
  }

  // Stripping a file whose text has a head and no JSON marker leaves the text in front of the head.

  lemma {:induction false} FrontStands(front: seq<string>, lines: seq<string>)
    requires NoneWhere(ManifestHead, front)
    ensures BlankManifests(front + lines) == front + BlankManifests(lines)
  {
    if front == [] {
      assert front + lines == lines;
    } else {
      FrontOfBoth(front, lines);
      assert front[0] in front && forall l | l in front[1..] :: l in front;
      FrontStands(front[1..], lines);
      Assoc([front[0]], front[1..], BlankManifests(lines));
      assert [front[0]] + front[1..] == front;
    }
  }

  lemma BlankedFromHead(lines: seq<string>, m: seq<string>, c: string, i: nat)
    requires IsManifest(m) && !ManifestHead(c) && NoBlock(ManifestHead, CloseLine, lines)
    requires i < |lines| && ManifestHead(lines[i]) && NoneWhere(ManifestHead, lines[..i])
    ensures BlankManifests(lines + Foot(m, c)) == lines[..i] + ["", c]
  {
    NoCloseBehind(lines, i);
    HeadClosedInFoot(lines[i..], m, c);
    FrontStands(lines[..i], lines[i..] + Foot(m, c));
    Parts(lines, i);
    Assoc(lines[..i], lines[i..], Foot(m, c));
    assert [""] + [c] == ["", c];
  }

  lemma TrimmedFront(front: seq<string>, c: string)
    requires NoneWhere(IsComment, front) && IsComment(c)
    ensures TrimNewlines(Unlines(BlankComments(front + ["", c])))
         == TrimNewlines(if front == [] then "" else Unlines(front) + "\n")
  {
    EmptyLine();
    LastBlanked(c);
    if front == [] {
      assert front + ["", c] == ["", c];
      assert TrimNewlines("\n") == TrimNewlines("\n"[..0]);
    } else {
      MarkerLineGoes(front, c);
      BlankedWhere(IsComment, front);
      assert (Unlines(front) + "\n")[..|Unlines(front)|] == Unlines(front);
    }
  }

  lemma HeadStrips(content: string, m: seq<string>, uid: string)
    requires Writable(uid) && IsManifest(m)
    requires !NoHead(StripLocalID(content)) && NoJsonBefore(StripLocalID(content), Unlines(m))
    ensures StripLocalID(StripLocalID(content) + Block(m, uid)) == TrimNewlines(BeforeHead(StripLocalID(content)))
  {
    var body, c := StripLocalID(content), LocalIDComment(uid);
    var lines := Lines(body);
    StrippedIsBare(content);
    MarkerTakesNoPart(body, m, uid);
    CommentIsOrdinary(uid);
    CommentReadsBack(uid);
    BlockLines(body, m, uid);
    BlankedLines(body + Block(m, uid));
    var i := FirstHead(lines);
    BlankedFromHead(lines, m, c, i);
    FrontLines(IsComment, ManifestHead, CloseLine, lines, i);
    TrimmedFront(lines[..i], c);
  }

  /** Where the text has a head, stamping the file anew takes all from that head for the manifest: it is
      stamping the content exactly when what is left and an empty line are the text in front of the head.
      If there is no JSON marker, what is left is that text without the newlines at its end. */
  lemma HeadRoundTrip(content: string, m: seq<string>, uid: string, other: string, docType: string)
    requires Writable(uid) && Writable(other) && !IsView(docType) && IsManifest(m)
    requires !NoHead(StripLocalID(content))
    ensures var file, body, man := InjectMarkers(content, Unlines(m), uid, docType), StripLocalID(content), Unlines(m);
      InjectLocalID(file, other, docType) == InjectMarkers(content, man, other, docType) <==>
        StripLocalID(file) + "\n\n" == BeforeHead(body)
    ensures NoJsonBefore(StripLocalID(content), Unlines(m)) ==>
      StripLocalID(InjectMarkers(content, Unlines(m), uid, docType)) == TrimNewlines(BeforeHead(StripLocalID(content)))
  {
    if NoJsonBefore(StripLocalID(content), Unlines(m)) { HeadStrips(content, m, uid); }
    var body := StripLocalID(content);
    var file := body + Block(m, uid);
    FileIsBlock(content, m, uid, docType);
    FileIsBlock(content, m, other, docType);
    var found := FoundFromHead(content, m, uid);
    var tail := found + ("\n" + LocalIDComment(other));
    RestampedText(file, found, other, docType);
    BlockBehind(body, Unlines(m), "\n" + LocalIDComment(other));
    Assoc(BeforeHead(body), found, "\n" + LocalIDComment(other));
    SameFront(StripLocalID(file) + "\n\n", BeforeHead(body), tail);
  }

  /** What is found in the file, and where it begins in the text. */
  lemma FoundFromHead(content: string, m: seq<string>, uid: string) returns (found: string)
    requires Writable(uid) && IsManifest(m) && !NoHead(StripLocalID(content))
    ensures var body := StripLocalID(content);
      && found != "" && ExtractManifest(body + Block(m, uid)) == found
      && body + ("\n\n" + Unlines(m)) == BeforeHead(body) + found
  {
    var body := StripLocalID(content);
    StrippedIsBare(content);
    BlockLines(body, m, uid);
    var i := FirstHead(Lines(body));
    ExtractedFromHead(Lines(body), m, LocalIDComment(uid), i);
    TextFromHead(body, m, i);
    found := Unlines(Lines(body)[i..] + ([""] + m));
  }

  lemma RestampedText(file: string, found: string, other: string, docType: string)
    requires other != "" && !IsView(docType) && ExtractManifest(file) == found && found != ""
    ensures InjectLocalID(file, other, docType)
        == StripLocalID(file) + "\n\n" + (found + ("\n" + LocalIDComment(other)))
  {
  }

  /** A text with a manifest behind it, from its first head on. */
  lemma TextFromHead(body: string, m: seq<string>, i: nat)
    requires IsManifest(m) && FirstWhere(ManifestHead, Lines(body)) == Some(i)
    ensures var found := Unlines(Lines(body)[i..] + ([""] + m));
      found != "" && body + ("\n\n" + Unlines(m)) == BeforeHead(body) + found
  {
    var lines := Lines(body);
    LinesOfText(body);
    ManifestBehind(lines[i..], m);
    if i == 0 {
      assert lines[0..] == lines;
    } else {
      UnlinesConcat(lines[..i], lines[i..]);
      Parts(lines, i);
      var front, back := Unlines(lines[..i]) + "\n", Unlines(lines[i..]);
      Assoc(front, back, "\n\n" + Unlines(m));
    }
  }

  lemma ManifestBehind(lines: seq<string>, m: seq<string>)
    requires lines != [] && m != []
    ensures Unlines(lines + ([""] + m)) == Unlines(lines) + ("\n\n" + Unlines(m))
    ensures Unlines(lines + ([""] + m)) != ""
  {
    UnlinesConcat(lines, [""] + m);
    UnlinesConcat([""], m);
    assert Unlines([""]) == "";
  }

  // Contents that come with their manifest.

  lemma ExtractedLines(content: string) returns (m: seq<string>)
    requires ExtractManifest(content) != ""
    ensures IsManifest(m) && Unlines(m) == ExtractManifest(content) && m == Lines(ExtractManifest(content))
  {
    LinesOfText(content);
    ExtractIsManifest(Lines(content));
    m :| IsManifest(m) && ExtractManifest(content) == Unlines(m);
    TextOfLines(m);
  }

  /** So a file that is read with its manifest and stamped keeps it: for every content with a manifest, none of
      whose lines starts with a quote. */
  lemma StampedRoundTrip(content: string, uid: string, other: string, docType: string)
    requires Writable(uid) && Writable(other) && !IsView(docType)
    requires ExtractManifest(content) != "" && Quiet(Lines(ExtractManifest(content)))
    ensures var file, body := InjectLocalID(content, uid, docType), StripLocalID(content);
      var man := ExtractManifest(content);
      && ParseLocalID(file) == CarriedUid(Lines(man), uid)
      && (StripLocalID(file) == body <==> NoJsonBefore(body, man) && NoHead(body))
      && (ExtractManifest(file) == man <==> NoHead(body))
      && (NoHead(body) ==>
            (InjectLocalID(file, other, docType) == InjectLocalID(content, other, docType) <==>
                NoJsonBefore(body, man)))
  {
    var m := ExtractedLines(content);
    ManifestRoundTrip(content, m, uid, other, docType);
  }

  // The manifest as it is written.

  function Items(entries: seq<string>): (r: seq<string>)
    ensures |r| == |entries| && forall i | 0 <= i < |r| :: r[i] == "- " + entries[i]
  {
    if entries == [] then [] else ["- " + entries[0]] + Items(entries[1..])
  }

  function Section(title: string, entries: seq<string>): seq<string> {
    if entries == [] then [] else [title] + Items(entries)
  }

  function HeadLine(note: string): string { "<!-- " + MANIFEST_KEY + note }

  /** A manifest: its head with a note, a line that says what the paths are relative to, and the two sections. */
  function ManifestLines(note: string, paths: string, inline: seq<string>, mounted: seq<string>): seq<string> {
    [HeadLine(note)] + (["Paths" + paths] + Section("inline:", inline) + Section("mounted:", mounted)) + ["-->"]
  }

  /** A line that means nothing to the scanners. */
  predicate Ordinary(l: string) { '\n' !in l && !CloseLine(l) && !QuoteLine(l) && !IsComment(l) }

  lemma WordIsOrdinary(l: string)
    requires '\n' !in l && l != "" && !Blank(l[0]) && l[0] != '<' && l[0] != '"' && !("-->" <= l)
    ensures Ordinary(l)
  {
    assert Skip(l) == l && "<!--"[0] == '<';
  }

  lemma PathsIsOrdinary(paths: string)
    requires '\n' !in paths
    ensures Ordinary("Paths" + paths)
  {
    var l := "Paths" + paths;
    assert l[0] == 'P' && "-->"[0] == '-';
    WordIsOrdinary(l);
  }

  lemma SectionIsOrdinary(title: string, entries: seq<string>)
    requires (title == "inline:" || title == "mounted:") && forall e | e in entries :: '\n' !in e
    ensures forall l | l in Section(title, entries) :: Ordinary(l)
  {
    WordIsOrdinary(title);
    forall i | 0 <= i < |entries| ensures Ordinary("- " + entries[i]) {
      assert entries[i] in entries;
      assert ("- " + entries[i])[1] == ' ' && "-->"[1] == '-';
      WordIsOrdinary("- " + entries[i]);
    }
  }

  lemma HeadEats(note: string)
    ensures SkipEat("<!--", Some(HeadLine(note))) == Some(" " + (MANIFEST_KEY + note))
    ensures Skip(" " + (MANIFEST_KEY + note)) == MANIFEST_KEY + note && Skip(HeadLine(note)) == HeadLine(note)
    ensures HeadLine(note)[0] == '<'
  {
    var l, rest := HeadLine(note), MANIFEST_KEY + note;
    assert l == "<!--" + (" " + rest) by { assert "<!-- " == "<!--" + " "; }
    SkipOne(l);
    EatFront("<!--", " " + rest);
    SkipOne(rest);
  }

  lemma HeadReads(note: string)
    requires '\n' !in note
    ensures var l := HeadLine(note); ManifestHead(l) && '\n' !in l && !QuoteLine(l) && !IsComment(l)
  {
    HeadEats(note);
    EatFront(MANIFEST_KEY, note);
    KeysDiffer(note);
    NoKeyNoComment(HeadLine(note));
    assert '\n' !in MANIFEST_KEY;
  }

  lemma NoKeyNoComment(l: string)
    requires SkipEat(KEY, SkipEat("<!--", Some(l))) == None
    ensures !IsComment(l)
  {
  }

  lemma KeysDiffer(note: string)
    ensures !(KEY <= MANIFEST_KEY + note)
  {
    assert (MANIFEST_KEY + note)[8] == MANIFEST_KEY[8] == 'a' && KEY[8] == 'i';
  }

  lemma CloseReads()
    ensures CloseLine("-->") && !QuoteLine("-->") && !IsComment("-->")
  {
    assert "-->"[0] == '-' && Skip("-->") == "-->" && "-->" == "-->" + "";
    EatFront("-->", "");
    assert !("<!--" <= "-->");
  }

  /** The manifest that is written is one, whatever the names of the attachments, quotes among them; no line of it
      starts with a quote, and it carries no uid of its own. */
  lemma WrittenManifest(note: string, paths: string, inline: seq<string>, mounted: seq<string>, uid: string)
    requires '\n' !in note && '\n' !in paths && forall e | e in inline || e in mounted :: '\n' !in e
    ensures var m := ManifestLines(note, paths, inline, mounted);
      IsManifest(m) && Quiet(m) && CarriedUid(m, uid) == uid
  {
    var inner := ["Paths" + paths] + Section("inline:", inline) + Section("mounted:", mounted);
    PathsIsOrdinary(paths);
    SectionIsOrdinary("inline:", inline);
    SectionIsOrdinary("mounted:", mounted);
    HeadReads(note);
    CloseReads();
    BetweenHeadAndClose(HeadLine(note), inner);
    NoFirstComment(ManifestLines(note, paths, inline, mounted));
  }

  lemma BetweenHeadAndClose(head: string, inner: seq<string>)
    requires ManifestHead(head) && '\n' !in head && !QuoteLine(head) && !IsComment(head)
    requires forall l | l in inner :: Ordinary(l)
    ensures var m := [head] + inner + ["-->"]; IsManifest(m) && Quiet(m) && NoneWhere(IsComment, m)
  {
    var m := [head] + inner + ["-->"];
    CloseReads();
    assert forall i | 0 < i < |m| - 1 :: m[i] == inner[i - 1] && inner[i - 1] in inner;
  }
}
