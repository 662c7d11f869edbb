/** What a whole push creates and archives: nothing goes missing because its file moved. */
module PushArchive {
  import opened Options
  import opened Checkout
  import opened PushSteps

  /** Every uid in use is below the next one to be handed out. */
  predicate Numbered(w: World) {
    && (forall u | u in w.server :: u < w.next)
    && (forall u | u in w.loc.memos :: u < w.next)
  }

  /** From `a` to `b` documents were only added: new ones are numbered from `a.next` on, live and
      tracked; no old one changed its state or whether it is tracked. */
  ghost predicate Grows(a: World, b: World) {
    && Numbered(b) && a.next <= b.next
    && (forall u | u < a.next :: (u in b.server <==> u in a.server) && (u in b.loc.memos <==> u in a.loc.memos))
    && (forall u | u in a.server :: u in b.server && b.server[u].live == a.server[u].live)
    && (forall u | a.next <= u :: (u in b.server <==> u in b.loc.memos) && (u in b.server ==> b.server[u].live))
  }

  /** Some file stands for the document. */
  predicate StoodFor(docs: seq<LocalDoc>, u: Uid) {
    exists d | d in docs :: d.uid == Some(u)
  }

  predicate SameDocuments(a: World, b: World) {
    && b.next == a.next && b.server.Keys == a.server.Keys && b.loc.memos.Keys == a.loc.memos.Keys
    && forall u | u in a.server :: b.server[u].live == a.server[u].live
  }

  lemma MoveStays(ws: Workspace, s: PushState, doc: LocalDoc, u: Uid)
    requires u in s.w.loc.memos
    ensures var r := MoveDoc(ws, s, doc, u);
            SameDocuments(s.w, r.w) && r.log.created == s.log.created
  {
  }

  lemma ContentStays(ws: Workspace, s: PushState, doc: LocalDoc, u: Uid)
    requires u in s.w.loc.memos
    ensures var r := PushContent(ws, s, doc, u);
            SameDocuments(s.w, r.w) && r.log.created == s.log.created
  {
  }

  lemma TrackedStays(ws: Workspace, s: PushState, live: set<Uid>, doc: LocalDoc, u: Uid)
    ensures var r := PushTracked(ws, s, live, doc, u);
            SameDocuments(s.w, r.w) && r.log.created == s.log.created
  {
    if u in live && u in s.w.loc.memos {
      var s1 := if s.w.loc.memos[u].path != doc.path then MoveDoc(ws, s, doc, u) else s;
      MoveStays(ws, s, doc, u);
      ContentStays(ws, s1, doc, u);
    }
  }

  lemma NewGrows(ws: Workspace, s: PushState, doc: LocalDoc)
    requires Numbered(s.w)
    ensures var (r, uid) := PushNew(ws, s, doc);
            && Grows(s.w, r.w)
            && (forall u | s.w.next <= u :: u in r.w.server <==> uid == Some(u))
            && (uid.Some? ==> s.w.next <= uid.value)
  {
  }

  lemma DocGrows(ws: Workspace, s: PushState, live: set<Uid>, doc: LocalDoc)
    requires Numbered(s.w)
    ensures var (r, uid) := PushDoc(ws, s, live, doc);
            && Grows(s.w, r.w)
            && (forall u :: uid == Some(u) <==> doc.uid == Some(u) || (s.w.next <= u && u in r.w.server))
            && (r.ok ==> s.ok)
            && (doc.uid.Some? ==> r.log.created == s.log.created && r.w.next == s.w.next)
  {
    if s.ok {
      if doc.uid.Some? { TrackedStays(ws, s, live, doc, doc.uid.value); } else { NewGrows(ws, s, doc); }
    }
  }

  lemma AllGrows(ws: Workspace, s: PushState, live: set<Uid>, docs: seq<LocalDoc>, claimed: set<Uid>)
    requires Numbered(s.w)
    ensures var (r, all) := PushAll(ws, s, live, docs, claimed);
            && Grows(s.w, r.w)
            && (forall u :: u in all <==> u in claimed || StoodFor(docs, u) || (s.w.next <= u && u in r.w.server))
            && (r.ok ==> s.ok)
            && ((forall d | d in docs :: d.uid.Some?) ==> r.log.created == s.log.created && r.w.next == s.w.next)
    decreases |docs|
  {
    if docs != [] {
      var doc, rest := docs[0], docs[1..];
      var (s1, uid) := PushDoc(ws, s, live, doc);
      DocGrows(ws, s, live, doc);
      AllGrows(ws, s1, live, rest, claimed + Claim(uid));
      assert docs == [doc] + rest;
      forall u: Uid ensures StoodFor(docs, u) <==> doc.uid == Some(u) || StoodFor(rest, u) {
        assert doc in docs;
      }
    }
  }

  lemma ArchiveAllDoes(s: PushState, live: set<Uid>, claimed: set<Uid>, uids: seq<Uid>)
    requires s.ok && live <= s.w.server.Keys
    ensures var r := ArchiveAll(s, live, claimed, uids);
            && r.ok && r.w.server.Keys == s.w.server.Keys && r.w.next == s.w.next
            && (forall u :: u in r.w.loc.memos <==> u in s.w.loc.memos && (u !in uids || u in claimed))
            && (forall u | u in s.w.server ::
                  r.w.server[u].live == (s.w.server[u].live && !(u in uids && u !in claimed && u in live)))
            && r.log.created == s.log.created
    decreases |uids|
  {
    if uids != [] {
      var s1 := ArchiveOne(s, live, claimed, uids[0]);
      ArchiveAllDoes(s1, live, claimed, uids[1..]);
      assert uids == [uids[0]] + uids[1..];
    }
  }

  lemma FailedArchive(s: PushState, live: set<Uid>, claimed: set<Uid>, uids: seq<Uid>)
    requires !s.ok
    ensures ArchiveAll(s, live, claimed, uids) == s
    decreases |uids|
  {
    if uids != [] { FailedArchive(s, live, claimed, uids[1..]); }
  }

  /** A push archives exactly the tracked, live documents that no file stands for. Documents
      created earlier in the same run (numbered from `w.next` on) count as claimed, and what
      stays tracked is what some file stands for. A push that fails archives nothing and keeps
      the old baseline. */
  lemma PushArchivesExactly(ws: Workspace, w: World, log: PushLog, docs: seq<LocalDoc>)
    requires Numbered(w)
    ensures var r := Push(ws, w, log, docs);
            && (forall u | u < w.next :: u in r.w.server <==> u in w.server)
            && (forall u | u in r.w.server && w.next <= u :: r.w.server[u].live)
            && (forall u | u in w.server ::
                  Live(r.w, u) <==> Live(w, u) && (r.ok && u in w.loc.memos ==> StoodFor(docs, u)))
            && (r.ok ==> forall u :: u in r.w.loc.memos <==>
                  if u < w.next then u in w.loc.memos && StoodFor(docs, u) else u in r.w.server)
            && (!r.ok ==> r.w.loc.memos == w.loc.memos)
            && ((forall d | d in docs :: d.uid.Some?) ==> r.log.created == log.created && r.w.next == w.next)
  {
    var live := LiveSet(w);
    var s := PushState(w, log, true);
    var (s1, claimed) := PushAll(ws, s, live, docs, {});
    AllGrows(ws, s, live, docs, {});
    var uids := Sorted(s1.w.loc.memos.Keys);
    if s1.ok {
      assert live <= s1.w.server.Keys;
      ArchiveAllDoes(s1, live, claimed, uids);
    } else {
      FailedArchive(s1, live, claimed, uids);
    }
  }

  /** With no file left in the work tree, a push archives every tracked live document. */
  lemma EmptyTreeArchivesAll(ws: Workspace, w: World, log: PushLog)
    requires Numbered(w)
    ensures forall u | u in w.loc.memos && Live(w, u) :: !Live(Push(ws, w, log, []).w, u)
  {
    PushArchivesExactly(ws, w, log, []);
    ArchiveAllDoes(PushState(w, log, true), LiveSet(w), {}, Sorted(w.loc.memos.Keys));
  }
}
