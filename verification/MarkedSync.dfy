/** Pull and push with the markers of the source: which server texts survive them. */
module MarkedSync {
  import opened Options
  import opened Strings
  import opened Checkout
  import opened LocalId
  import opened LocalIdLines
  import opened LocalIdRoundTrip
  import opened MarkedText
  import opened PullConvergence
  import opened PullSteps
  import opened SyncRuns
  import opened LostUpdates

  predicate DistinctPlaces(ws: Workspace, cur: map<Uid, Memo>) {
    forall u, v | u in cur && v in cur && u != v :: ws.PathOf(cur[u]) != ws.PathOf(cur[v])
  }

  function Empty(log: PullLog): PullState { PullState(Local(map[], map[], map[]), log) }

  /** A first pull of documents with distinct paths brings all of them, and each file shows its
      document's text exactly if that is plain. */
  lemma FirstPull(ws: Workspace, naming: Naming, recent: Listing, current: Listing, log: PullLog)
    requires naming.Valid() && DistinctPlaces(ws, Alive(current))
    requires Shows(Alive(current), recent) && Shows(Alive(current), current)
    ensures var marking, cur := Marking(ws, naming), Alive(current);
      var r := Pull(marking, Empty(log), recent, current);
      && Converged(marking, r.loc, cur)
      && (forall u | u in cur && !cur[u].docType.Pdf? ::
            LocalHash(r.loc.files[ws.PathOf(cur[u])]) == Hash(cur[u].content) <==> Plain(cur[u].content))
  {
    var marking, cur := Marking(ws, naming), Alive(current);
    var r := Pull(marking, Empty(log), recent, current);
    SamePaths(ws, naming, cur);
    PullConverges(marking, Empty(log), recent, current);
    forall u | u in cur && !cur[u].docType.Pdf?
      ensures LocalHash(r.loc.files[ws.PathOf(cur[u])]) == Hash(cur[u].content) <==> Plain(cur[u].content)
    {
      ReadableIsPlain(ws, naming, u, cur[u]);
      assert marking.PathOf(cur[u]) == ws.PathOf(cur[u]);
    }
  }

  /** If all of them are plain, pulling again changes nothing. */
  lemma FirstPullIsFinal(ws: Workspace, naming: Naming, recent: Listing, current: Listing, again: Listing, log: PullLog)
    requires naming.Valid() && DistinctPlaces(ws, Alive(current))
    requires Shows(Alive(current), recent) && Shows(Alive(current), current) && Shows(Alive(current), again)
    requires forall m | m in Alive(current).Values :: !m.docType.Pdf? && Plain(m.content)
    ensures var marking := Marking(ws, naming);
      var r := Pull(marking, Empty(log), recent, current);
      Pull(marking, r, again, current) == r
  {
    var marking, cur := Marking(ws, naming), Alive(current);
    var r := Pull(marking, Empty(log), recent, current);
    SamePaths(ws, naming, cur);
    PullConverges(marking, Empty(log), recent, current);
    TrackedAfterPull(marking, Empty(log), recent, current);
    forall u | u in r.loc.memos ensures Marked(marking, r.loc, u) {
      FinalIsMarked(ws, naming, r.loc, u, cur[u]);
    }
    SecondPull(marking, r, again, current);
  }

  lemma FinalIsMarked(ws: Workspace, naming: Naming, loc: Local, u: Uid, m: Memo)
    requires naming.Valid() && !m.docType.Pdf? && Plain(m.content)
    requires Final(Marking(ws, naming), Local(map[], map[], map[]), loc, u, m)
    ensures Marked(Marking(ws, naming), loc, u)
  {
    PlainFile(ws, naming, u, m);
  }

  lemma SamePaths(ws: Workspace, naming: Naming, cur: map<Uid, Memo>)
    requires DistinctPlaces(ws, cur)
    ensures NoCollision(Marking(ws, naming), Local(map[], map[], map[]), cur)
    ensures Clean(Marking(ws, naming), Local(map[], map[], map[]), cur)
  {
    forall u, v | u in cur && v in cur && u != v
      ensures Marking(ws, naming).PathOf(cur[u]) != Marking(ws, naming).PathOf(cur[v])
    {
      assert ws.PathOf(cur[u]) != ws.PathOf(cur[v]);
    }
  }

  /** A document is pulled and pushed with nothing edited: its text on the server is replaced exactly
      if it is not plain, and then it was never handed out. */
  lemma UneditedPushReplaces(ws: Workspace, naming: Naming, m: Memo)
    requires naming.Valid() && !m.docType.Pdf? && !ws.extType(ws.PathOf(m)).Pdf?
    ensures var marking := Marking(ws, naming);
      var t := Run(marking, 0, Nothing(), PullRun(m));
      var doc := LocalDoc(ws.PathOf(m), PulledFile(marking, m).body, Some(0), Some(0));
      && (Replaces(t.w, Effect(marking, t.w, PushStep({0}, doc)), 0) <==> !Plain(m.content))
      && (Unseen(t, 0) <==> !Plain(m.content))
  {
    var marking := Marking(ws, naming);
    assert marking.PathOf(m) == ws.PathOf(m);
    PullThenPushReplaces(marking, m);
    ReadableIsPlain(ws, naming, 0, m);
  }

  /** A server text whose first line is a marker of its own, as a file kept as a document has. */
  function Copied(uid: string, line: string): string { LocalIDComment(uid) + ['\n'] + line }

  lemma CopiedLines(uid: string, line: string)
    requires Writable(uid) && '\n' !in line && '"' !in line
    ensures Lines(Copied(uid, line)) == [LocalIDComment(uid), line] && StripJson(Copied(uid, line)) == Copied(uid, line)
  {
    CommentIsOneLine(uid);
    SplitAround(LocalIDComment(uid), line, '\n');
    SplitNone(line, '\n');
    LocalIdText.QuotelessHasNoJson(Copied(uid, line));
  }

  lemma CopiedBlanks(uid: string, line: string)
    requires Writable(uid) && !IsComment(line) && !CloseLine(line)
    ensures BlankManifests([LocalIDComment(uid), line]) == [LocalIDComment(uid), line]
    ensures BlankComments([LocalIDComment(uid), line]) == ["", line]
  {
    CommentReadsBack(uid);
    CommentIsOrdinary(uid);
    EmptyLine();
    NothingToBlank(ManifestHead, CloseLine, [LocalIDComment(uid), line]);
    BlankedWhere(IsComment, [LocalIDComment(uid), line]);
  }

  /** It loses the line, and is not plain. */
  lemma CopiedIsStripped(uid: string, line: string)
    requires Writable(uid) && '\n' !in line && '"' !in line && line != "" && !IsComment(line) && !CloseLine(line)
    ensures StripLocalID(Copied(uid, line)) == "\n" + line && !Plain(Copied(uid, line))
  {
    assert "" + ['\n'] + line == "\n" + line;
    CopiedLines(uid, line);
    CopiedBlanks(uid, line);
    LinesOfText(Copied(uid, line));
    TwoLines("", line);
    LastIsKept("\n", line);
    LastIsKept(LocalIDComment(uid) + ['\n'], line);
    CommentParts(uid);
  }

  lemma TwoLines(a: string, b: string)
    ensures Unlines([a, b]) == a + ['\n'] + b
  {
    assert [a, b][1..] == [b] && Unlines([b]) == b;
    assert Unlines([a, b]) == [a, b][0] + ['\n'] + Unlines([a, b][1..]);
  }

  lemma LastIsKept(a: string, b: string)
    requires b != "" && '\n' !in b
    ensures TrimNewlines(a + b) == a + b
  {
    assert (a + b)[|a + b| - 1] == b[|b| - 1] && b[|b| - 1] in b;
  }

  lemma HelloIsOrdinary()
    ensures !IsComment("hello") && !CloseLine("hello")
  {
    assert Skip("hello") == "hello";
    assert "hello"[0] == 'h' && !("<!--" <= "hello") && !("-->" <= "hello");
  }

  /** So the server's text is replaced, never having been handed out, by a pull and a push with
      nothing edited. */
  lemma CopiedMarkerIsPushedAway(ws: Workspace, naming: Naming, folder: string, title: string)
    requires naming.Valid() && !ws.extType(ws.relPath(folder, title, Markdown)).Pdf?
    ensures var marking, m := Marking(ws, naming), Memo(folder, title, Markdown, Copied("x", "hello"));
      var t := Run(marking, 0, Nothing(), PullRun(m));
      var doc := LocalDoc(ws.PathOf(m), PulledFile(marking, m).body, Some(0), Some(0));
      Unseen(t, 0) && Replaces(t.w, Effect(marking, t.w, PushStep({0}, doc)), 0)
  {
    HelloIsOrdinary();
    CopiedIsStripped("x", "hello");
    UneditedPushReplaces(ws, naming, Memo(folder, title, Markdown, Copied("x", "hello")));
  }
}
