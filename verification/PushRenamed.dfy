/** Renaming files in the work tree: markers carry the identity, so every document follows its file. */
module PushRenamed {
  import opened Options
  import opened Checkout
  import opened PushSteps
  import opened PushArchive
  import opened Identities

  /** The documents push finds in the work tree: each file once, nothing resolved yet. */
  predicate Loads(docs: seq<LocalDoc>, files: map<Path, File>) {
    && DistinctPaths(docs)
    && (forall d | d in docs :: d.path in files && d.content == files[d.path].body
                                && d.marker == files[d.path].marker && d.uid == None)
    && (forall p | p in files :: exists i | 0 <= i < |docs| :: docs[i].path == p)
  }

  /** Every tracked document is live and has its marked file in place, and there is no other file. */
  ghost predicate FullCheckout(w: World) {
    && (forall u | u in w.loc.memos ::
          Live(w, u) && w.loc.memos[u].path in w.loc.files && w.loc.files[w.loc.memos[u].path].marker == Some(u))
    && (forall p | p in w.loc.files :: exists u | u in w.loc.memos :: w.loc.memos[u].path == p)
  }

  /** `files` is `before` with every file moved along `ren`, which sends no two files to one
      path. Texts may have been edited; markers are kept. */
  ghost predicate RenamedBy(before: map<Path, File>, files: map<Path, File>, ren: map<Path, Path>) {
    && ren.Keys == before.Keys && ren.Values == files.Keys
    && (forall p, q | p in ren && q in ren && p != q :: ren[p] != ren[q])
    && (forall p | p in ren :: files[ren[p]].marker == before[p].marker)
  }

  /** After any renaming and editing of a fully tracked, fully live checkout that keeps every
      marker, each file still resolves to the document it was moved from. */
  lemma RenamedFilesResolve(w: World, files: map<Path, File>, ren: map<Path, Path>,
                            loaded: seq<LocalDoc>, docs: seq<LocalDoc>, idx: map<Path, Uid>)
    requires FullCheckout(w) && RenamedBy(w.loc.files, files, ren)
    requires Loads(loaded, files) && IsPathIndex(idx, w.loc.memos)
    requires Resolved(loaded, docs, w.loc.memos, idx)
    ensures forall d | d in docs :: d.uid.Some? && d.uid.value in w.loc.memos
                                    && w.loc.memos[d.uid.value].path in ren
                                    && d.path == ren[w.loc.memos[d.uid.value].path]
  {
    forall d | d in docs
      ensures d.uid.Some? && d.uid.value in w.loc.memos && w.loc.memos[d.uid.value].path in ren
              && d.path == ren[w.loc.memos[d.uid.value].path]
    {
      var i :| 0 <= i < |docs| && docs[i] == d;
      FileFindsItsDocument(w, files, ren, loaded, idx, i);
    }
  }

  // What a push makes of one file.

  /** Document `u` ends up where its file `doc` is, with the file's text. Only what the push checks
      by its baseline, for a file that did not move, depends on that baseline being right. */
  predicate Follows(ws: Workspace, a: World, b: World, doc: LocalDoc, u: Uid)
    requires u in a.loc.memos
  {
    var prev := a.loc.memos[u];
    && u in a.server && u in b.server && b.server[u].memo.docType == a.server[u].memo.docType
    && (if prev.path != doc.path then ws.PathOf(b.server[u].memo) == doc.path
        else ws.PathOf(b.server[u].memo) == ws.PathOf(a.server[u].memo))
    && (Carried(ws, a, doc, u) ==> Hash(b.server[u].memo.content) == Hash(doc.content))
  }

  /** The text of the file is exchanged, and for a file that did not move the baseline is up to date. */
  predicate Carried(ws: Workspace, w: World, doc: LocalDoc, u: Uid)
    requires u in w.loc.memos && u in w.server
  {
    var prev, m := w.loc.memos[u], w.server[u].memo;
    && !ws.extType(doc.path).Pdf?
    && if prev.path != doc.path then !m.docType.Pdf?
       else !prev.docType.Pdf? && prev.conflict == None && prev.hash == Hash(m.content)
  }

  lemma ContentFollows(ws: Workspace, s: PushState, doc: LocalDoc, u: Uid)
    requires u in s.w.loc.memos && u in s.w.server
    ensures var r, prev, m := PushContent(ws, s, doc, u).w, s.w.loc.memos[u], s.w.server[u].memo;
            && u in r.server && r.server[u].memo.(content := "") == m.(content := "")
            && (prev.conflict == None && prev.hash == Hash(m.content) ==>
                Hash(r.server[u].memo.content) == Hash(doc.content))
  {
  }

  lemma MoveFollows(ws: Workspace, s: PushState, doc: LocalDoc, u: Uid)
    requires u in s.w.loc.memos && MoveDoc(ws, s, doc, u).ok && s.ok
    ensures var r := MoveDoc(ws, s, doc, u).w;
            && u in s.w.server && u in r.server && u in r.loc.memos
            && ws.PathOf(r.server[u].memo) == doc.path
            && r.server[u].memo.docType == s.w.server[u].memo.docType
            && r.loc.memos[u] == Rebased(ws, r.server[u].memo, doc.path)
  {
  }

  lemma PathOfIgnoresText(ws: Workspace, a: Memo, b: Memo)
    requires a.(content := "") == b.(content := "")
    ensures ws.PathOf(a) == ws.PathOf(b) && a.docType == b.docType
  {
    assert a.folder == a.(content := "").folder && a.title == a.(content := "").title;
    assert a.docType == a.(content := "").docType;
  }

  lemma TrackedFollows(ws: Workspace, s: PushState, live: set<Uid>, doc: LocalDoc, u: Uid)
    requires s.ok && u in live && u in s.w.loc.memos && u in s.w.server && PushTracked(ws, s, live, doc, u).ok
    ensures Follows(ws, s.w, PushTracked(ws, s, live, doc, u).w, doc, u)
  {
    var s1 := if s.w.loc.memos[u].path != doc.path then MoveDoc(ws, s, doc, u) else s;
    if s.w.loc.memos[u].path != doc.path { MoveFollows(ws, s, doc, u); }
    if !s1.w.loc.memos[u].docType.Pdf? && !ws.extType(doc.path).Pdf? {
      ContentFollows(ws, s1, doc, u);
      PathOfIgnoresText(ws, PushContent(ws, s1, doc, u).w.server[u].memo, s1.w.server[u].memo);
    }
  }

  /** The document and its baseline are as they were. */
  predicate Apart(a: World, b: World, u: Uid) {
    && (u in a.server ==> u in b.server && b.server[u].memo == a.server[u].memo)
    && (u in a.loc.memos ==> u in b.loc.memos && b.loc.memos[u] == a.loc.memos[u])
  }

  lemma OtherTracked(ws: Workspace, s: PushState, live: set<Uid>, doc: LocalDoc, v: Uid, u: Uid)
    requires v != u
    ensures Apart(s.w, PushTracked(ws, s, live, doc, v).w, u)
  {
  }

  /** The files stand for documents, each for another. */
  predicate Distinct(docs: seq<LocalDoc>) {
    && (forall d | d in docs :: d.uid.Some?)
    && (forall i, j | 0 <= i < j < |docs| :: docs[i].uid != docs[j].uid)
  }

  lemma DistinctRest(docs: seq<LocalDoc>)
    requires docs != [] && Distinct(docs)
    ensures docs[0].uid.Some? && Distinct(docs[1..]) && forall d | d in docs[1..] :: d.uid != docs[0].uid
  {
    assert docs[0] in docs && forall d | d in docs[1..] :: d in docs;
    forall d | d in docs[1..] ensures d.uid != docs[0].uid {
      var k :| 0 <= k < |docs[1..]| && docs[1..][k] == d;
      assert docs[k + 1] == d;
    }
  }

  lemma AllApart(ws: Workspace, s: PushState, live: set<Uid>, docs: seq<LocalDoc>, claimed: set<Uid>, u: Uid)
    requires forall d | d in docs :: d.uid.Some? && d.uid != Some(u)
    ensures Apart(s.w, PushAll(ws, s, live, docs, claimed).0.w, u)
    decreases |docs|
  {
    if docs != [] {
      assert docs[0] in docs;
      var s1 := PushDoc(ws, s, live, docs[0]).0;
      OtherTracked(ws, s, live, docs[0], docs[0].uid.value, u);
      AllApart(ws, s1, live, docs[1..], claimed + Claim(docs[0].uid), u);
    }
  }

  lemma AllFollow(ws: Workspace, s: PushState, live: set<Uid>, docs: seq<LocalDoc>, claimed: set<Uid>, doc: LocalDoc,
                  u: Uid)
    requires Distinct(docs) && doc in docs && doc.uid == Some(u)
    requires u in live && u in s.w.loc.memos && u in s.w.server && PushAll(ws, s, live, docs, claimed).0.ok
    ensures Follows(ws, s.w, PushAll(ws, s, live, docs, claimed).0.w, doc, u)
    decreases |docs|
  {
    var (s1, uid) := PushDoc(ws, s, live, docs[0]);
    var rest := docs[1..];
    DistinctRest(docs);
    AllOk(ws, s1, live, rest, claimed + Claim(uid));
    if docs[0] == doc {
      TrackedFollows(ws, s, live, doc, u);
      AllApart(ws, s1, live, rest, claimed + Claim(uid), u);
    } else {
      assert docs == [docs[0]] + rest;
      OtherTracked(ws, s, live, docs[0], docs[0].uid.value, u);
      AllFollow(ws, s1, live, rest, claimed + Claim(uid), doc, u);
    }
  }

  lemma AllOk(ws: Workspace, s: PushState, live: set<Uid>, docs: seq<LocalDoc>, claimed: set<Uid>)
    requires PushAll(ws, s, live, docs, claimed).0.ok
    ensures s.ok
    decreases |docs|
  {
    if docs != [] && !s.ok { AllOk(ws, s, live, docs[1..], claimed + Claim(docs[0].uid)); }
  }

  lemma ArchiveKeepsTexts(s: PushState, live: set<Uid>, claimed: set<Uid>, uids: seq<Uid>, u: Uid)
    requires u in s.w.server
    ensures var r := ArchiveAll(s, live, claimed, uids); u in r.w.server && r.w.server[u].memo == s.w.server[u].memo
    decreases |uids|
  {
    if uids != [] { ArchiveKeepsTexts(ArchiveOne(s, live, claimed, uids[0]), live, claimed, uids[1..], u); }
  }

  lemma ArchiveOk(s: PushState, live: set<Uid>, claimed: set<Uid>, uids: seq<Uid>)
    requires ArchiveAll(s, live, claimed, uids).ok
    ensures s.ok
    decreases |uids|
  {
    if uids != [] { ArchiveOk(ArchiveOne(s, live, claimed, uids[0]), live, claimed, uids[1..]); }
  }

  /** After a push that succeeds, the live document a file stands for is where the file is. */
  lemma PushFollows(ws: Workspace, w: World, log: PushLog, docs: seq<LocalDoc>, doc: LocalDoc, u: Uid)
    requires Distinct(docs) && doc in docs && doc.uid == Some(u) && Live(w, u) && u in w.loc.memos
    requires Push(ws, w, log, docs).ok
    ensures Follows(ws, w, Push(ws, w, log, docs).w, doc, u)
  {
    var live, s := LiveSet(w), PushState(w, log, true);
    var (s1, claimed) := PushAll(ws, s, live, docs, {});
    var uids := Sorted(s1.w.loc.memos.Keys);
    ArchiveOk(s1, live, claimed, uids);
    AllFollow(ws, s, live, docs, {}, doc, u);
    ArchiveKeepsTexts(s1, live, claimed, uids, u);
  }

  /** And a push of it creates nothing and archives nothing: every document keeps its uid, its
      place in the baseline and its state; and if the push succeeds, every document is where its file
      was moved to and holds the file's text. */
  lemma RenamingKeepsEveryDocument(ws: Workspace, w: World, files: map<Path, File>, ren: map<Path, Path>,
                                   log: PushLog, loaded: seq<LocalDoc>, docs: seq<LocalDoc>, idx: map<Path, Uid>)
    requires Numbered(w) && FullCheckout(w) && RenamedBy(w.loc.files, files, ren)
    requires Loads(loaded, files) && IsPathIndex(idx, w.loc.memos)
    requires Resolved(loaded, docs, w.loc.memos, idx)
    ensures var w1 := w.(loc := w.loc.(files := files));
            var r := Push(ws, w1, log, docs);
            && r.log.created == log.created
            && (forall u :: u in r.w.server <==> u in w.server)
            && (forall u | u in w.server :: Live(r.w, u) <==> Live(w, u))
            && (forall u :: u in r.w.loc.memos <==> u in w.loc.memos)
            && (r.ok ==> forall u | u in w.loc.memos :: FollowsFile(ws, w1, r.w, ren[w.loc.memos[u].path], u))
  {
    RenamedFilesResolve(w, files, ren, loaded, docs, idx);
    forall u | u in w.loc.memos ensures StoodFor(docs, u) {
      EveryDocumentIsStoodFor(w, files, ren, loaded, docs, idx, u);
    }
    var w1 := w.(loc := w.loc.(files := files));
    RenamedPush(ws, w1, log, docs);
    if Push(ws, w1, log, docs).ok {
      forall u | u in w.loc.memos ensures FollowsFile(ws, w1, Push(ws, w1, log, docs).w, ren[w.loc.memos[u].path], u) {
        RenamedOneFollows(ws, w, files, ren, log, loaded, docs, idx, u);
      }
    }
  }

  /** The document is where the file at `q` is, with its text. */
  predicate FollowsFile(ws: Workspace, a: World, b: World, q: Path, u: Uid)
    requires u in a.loc.memos && q in a.loc.files
  {
    Follows(ws, a, b, LocalDoc(q, a.loc.files[q].body, a.loc.files[q].marker, Some(u)), u)
  }

  lemma RenamedOneFollows(ws: Workspace, w: World, files: map<Path, File>, ren: map<Path, Path>, log: PushLog,
                          loaded: seq<LocalDoc>, docs: seq<LocalDoc>, idx: map<Path, Uid>, u: Uid)
    requires FullCheckout(w) && RenamedBy(w.loc.files, files, ren)
    requires Loads(loaded, files) && IsPathIndex(idx, w.loc.memos) && Resolved(loaded, docs, w.loc.memos, idx)
    requires u in w.loc.memos && Push(ws, w.(loc := w.loc.(files := files)), log, docs).ok
    ensures var w1 := w.(loc := w.loc.(files := files));
            FollowsFile(ws, w1, Push(ws, w1, log, docs).w, ren[w.loc.memos[u].path], u)
  {
    RenamedAreDistinct(w, files, ren, loaded, docs, idx);
    var doc := FileOfDocument(w, files, ren, loaded, docs, idx, u);
    PushFollows(ws, w.(loc := w.loc.(files := files)), log, docs, doc, u);
  }

  /** The resolved file of a tracked document. */
  lemma FileOfDocument(w: World, files: map<Path, File>, ren: map<Path, Path>,
                       loaded: seq<LocalDoc>, docs: seq<LocalDoc>, idx: map<Path, Uid>, u: Uid) returns (doc: LocalDoc)
    requires FullCheckout(w) && RenamedBy(w.loc.files, files, ren)
    requires Loads(loaded, files) && IsPathIndex(idx, w.loc.memos) && Resolved(loaded, docs, w.loc.memos, idx)
    requires u in w.loc.memos
    ensures doc in docs && ren[w.loc.memos[u].path] in files
    ensures var q := ren[w.loc.memos[u].path]; doc == LocalDoc(q, files[q].body, files[q].marker, Some(u))
  {
    var p := w.loc.memos[u].path;
    assert p in w.loc.files && p in ren.Keys;
    assert ren[p] in ren.Values && ren[p] in files;
    var i :| 0 <= i < |loaded| && loaded[i].path == ren[p];
    FileFindsItsDocument(w, files, ren, loaded, idx, i);
    doc := docs[i];
    assert loaded[i] in loaded;
    SamePathSameDocument(w, doc.uid.value, u);
  }

  lemma SamePathSameDocument(w: World, u: Uid, v: Uid)
    requires FullCheckout(w) && u in w.loc.memos && v in w.loc.memos && w.loc.memos[u].path == w.loc.memos[v].path
    ensures u == v
  {
    assert w.loc.files[w.loc.memos[u].path].marker == Some(u);
  }

  lemma RenamedAreDistinct(w: World, files: map<Path, File>, ren: map<Path, Path>,
                           loaded: seq<LocalDoc>, docs: seq<LocalDoc>, idx: map<Path, Uid>)
    requires FullCheckout(w) && RenamedBy(w.loc.files, files, ren)
    requires Loads(loaded, files) && IsPathIndex(idx, w.loc.memos) && Resolved(loaded, docs, w.loc.memos, idx)
    ensures Distinct(docs)
  {
    RenamedFilesResolve(w, files, ren, loaded, docs, idx);
    forall i, j | 0 <= i < j < |docs| ensures docs[i].uid != docs[j].uid {
      assert docs[i] in docs && docs[j] in docs;
      assert loaded[i].path != loaded[j].path;
    }
  }

  lemma RenamedPush(ws: Workspace, w: World, log: PushLog, docs: seq<LocalDoc>)
    requires Numbered(w)
    requires forall d | d in docs :: d.uid.Some?
    requires forall u | u in w.loc.memos :: StoodFor(docs, u)
    ensures var r := Push(ws, w, log, docs);
            && r.log.created == log.created
            && (forall u :: u in r.w.server <==> u in w.server)
            && (forall u | u in w.server :: Live(r.w, u) <==> Live(w, u))
            && (forall u :: u in r.w.loc.memos <==> u in w.loc.memos)
  {
    PushArchivesExactly(ws, w, log, docs);
    NumbersStay(ws, w, log, docs);
  }

  lemma NumbersStay(ws: Workspace, w: World, log: PushLog, docs: seq<LocalDoc>)
    requires Numbered(w)
    ensures var r := Push(ws, w, log, docs); forall u | u in r.w.server :: u < r.w.next
  {
    var live, s := LiveSet(w), PushState(w, log, true);
    var (s1, claimed) := PushAll(ws, s, live, docs, {});
    AllGrows(ws, s, live, docs, {});
    if s1.ok {
      ArchiveAllDoes(s1, live, claimed, Sorted(s1.w.loc.memos.Keys));
    } else {
      FailedArchive(s1, live, claimed, Sorted(s1.w.loc.memos.Keys));
    }
  }

  lemma EveryDocumentIsStoodFor(w: World, files: map<Path, File>, ren: map<Path, Path>,
                                loaded: seq<LocalDoc>, docs: seq<LocalDoc>, idx: map<Path, Uid>, u: Uid)
    requires FullCheckout(w) && RenamedBy(w.loc.files, files, ren)
    requires Loads(loaded, files) && IsPathIndex(idx, w.loc.memos) && Resolved(loaded, docs, w.loc.memos, idx)
    requires u in w.loc.memos
    ensures StoodFor(docs, u)
  {
    var doc := FileOfDocument(w, files, ren, loaded, docs, idx, u);
  }

  /** The document whose file was moved to `q`. */
  lemma MovedFrom(w: World, files: map<Path, File>, ren: map<Path, Path>, q: Path) returns (u: Uid)
    requires FullCheckout(w) && RenamedBy(w.loc.files, files, ren) && q in files
    ensures u in w.loc.memos && w.loc.memos[u].path in ren && ren[w.loc.memos[u].path] == q
    ensures files[q].marker == Some(u)
  {
    assert q in ren.Values;
    var p :| p in ren && ren[p] == q;
    u :| u in w.loc.memos && w.loc.memos[u].path == p;
  }

  lemma FileFindsItsDocument(w: World, files: map<Path, File>, ren: map<Path, Path>,
                             loaded: seq<LocalDoc>, idx: map<Path, Uid>, i: nat)
    requires FullCheckout(w) && RenamedBy(w.loc.files, files, ren)
    requires Loads(loaded, files) && IsPathIndex(idx, w.loc.memos) && i < |loaded|
    ensures var uid := Identity(loaded, w.loc.memos, idx, i);
            uid.Some? && uid.value in w.loc.memos && w.loc.memos[uid.value].path in ren
            && loaded[i].path == ren[w.loc.memos[uid.value].path]
  {
    var memos := w.loc.memos;
    assert loaded[i] in loaded;
    var u := MovedFrom(w, files, ren, loaded[i].path);
    forall j | 0 <= j < |loaded| && Claims(loaded, memos, j, u) ensures j == i {
      assert loaded[j] in loaded;
      var v := MovedFrom(w, files, ren, loaded[j].path);
      assert v == u;
      assert loaded[j].path == loaded[i].path;
    }
    assert MarkerWins(loaded, memos, |loaded|, i, u);
  }
}
