/** When a push replaces a server text that nobody here has seen, over every run. */
module LostUpdates {
  import opened Options
  import opened Checkout
  import opened PullSteps
  import opened PushSteps
  import opened SyncRuns

  /** The step changed the text the server holds for the document. */
  predicate Replaces(a: World, b: World, u: Uid) {
    u in a.server && u in b.server && Hash(b.server[u].memo.content) != Hash(a.server[u].memo.content)
  }

  predicate Unseen(t: Trail, u: Uid) {
    u in t.w.server && Hash(t.w.server[u].memo.content) !in t.seen
  }

  /** The file's text differs from the server's, and neither is a PDF's. */
  predicate Contested(ws: Workspace, w: World, live: set<Uid>, doc: LocalDoc, u: Uid) {
    && u in live && u in w.loc.memos && u in w.server && !ws.extType(doc.path).Pdf?
    && Hash(doc.content) != Hash(w.server[u].memo.content)
  }

  /** The file was moved since the last sync, and the server performs the move. */
  predicate MovesOver(ws: Workspace, w: World, live: set<Uid>, doc: LocalDoc, u: Uid) {
    && Contested(ws, w, live, doc, u) && w.loc.memos[u].path != doc.path && !w.server[u].memo.docType.Pdf?
    && var (folder, title) := ws.derive(doc.path);
       !PathTaken(w.server, folder, title, Some(u))
       && ws.PathOf(w.server[u].memo.(folder := folder, title := title)) == doc.path
  }

  /** The file sits where it was, and the server's text is the one on record: that of the baseline,
      or that of a conflict whose sidecar is gone. */
  predicate Trusts(ws: Workspace, w: World, live: set<Uid>, doc: LocalDoc, u: Uid) {
    && Contested(ws, w, live, doc, u) && w.loc.memos[u].path == doc.path && !w.loc.memos[u].docType.Pdf?
    && var prev := w.loc.memos[u];
       if prev.conflict.Some?
       then doc.path !in w.loc.sidecars && Hash(w.server[u].memo.content) == prev.conflict.value
       else Hash(w.server[u].memo.content) == prev.hash
  }

  lemma ContentReplaces(ws: Workspace, s: PushState, live: set<Uid>, doc: LocalDoc, u: Uid)
    requires u in live && u in s.w.loc.memos && s.w.loc.memos[u].path == doc.path
    requires !s.w.loc.memos[u].docType.Pdf? && !ws.extType(doc.path).Pdf?
    ensures var r := PushContent(ws, s, doc, u).w;
            && (Replaces(s.w, r, u) <==> Trusts(ws, s.w, live, doc, u))
            && (Replaces(s.w, r, u) ==> r.server[u].memo.content == doc.content)
  {
  }

  lemma MovedReplaces(ws: Workspace, s: PushState, live: set<Uid>, doc: LocalDoc, u: Uid)
    requires s.ok && u in live && u in s.w.loc.memos && s.w.loc.memos[u].path != doc.path && doc.uid == Some(u)
    ensures var r := PushTracked(ws, s, live, doc, u).w;
            && (Replaces(s.w, r, u) <==> MovesOver(ws, s.w, live, doc, u))
            && (Replaces(s.w, r, u) ==> r.server[u].memo.content == doc.content)
  {
    var s1 := MoveDoc(ws, s, doc, u);
    MoveRebases(ws, s, doc, u);
    MoveSucceeds(ws, s, doc, u);
    if s1.ok && !s1.w.loc.memos[u].docType.Pdf? && !ws.extType(doc.path).Pdf? {
      ContentReplaces(ws, s1, live, doc, u);
    }
  }

  lemma MoveSucceeds(ws: Workspace, s: PushState, doc: LocalDoc, u: Uid)
    requires s.ok && u in s.w.loc.memos
    ensures var r := MoveDoc(ws, s, doc, u);
            var (folder, title) := ws.derive(doc.path);
            && (r.ok <==> u in s.w.server && !PathTaken(s.w.server, folder, title, Some(u))
                          && ws.PathOf(s.w.server[u].memo.(folder := folder, title := title)) == doc.path)
            && (u in s.w.server ==> u in r.w.server && r.w.server[u].memo.content == s.w.server[u].memo.content)
  {
  }

  /** What a push replaces, whatever happened before: it moves over the server's text, or trusts
      its record of it; and the text put there is the file's. */
  lemma PushReplaces(ws: Workspace, w: World, u: Uid, live: set<Uid>, doc: LocalDoc)
    requires doc.uid == Some(u)
    ensures var r := Effect(ws, w, PushStep(live, doc));
            && (Replaces(w, r, u) <==> MovesOver(ws, w, live, doc, u) || Trusts(ws, w, live, doc, u))
            && (Replaces(w, r, u) ==> r.server[u].memo.content == doc.content)
  {
    var s := OnWorld(w);
    if u in live && u in w.loc.memos {
      if w.loc.memos[u].path != doc.path {
        MovedReplaces(ws, s, live, doc, u);
      } else if !w.loc.memos[u].docType.Pdf? && !ws.extType(doc.path).Pdf? {
        ContentReplaces(ws, s, live, doc, u);
      }
    }
  }

  lemma TrustedIsKnown(ws: Workspace, t: Trail, u: Uid, live: set<Uid>, doc: LocalDoc)
    requires Inv(ws, t, u) && Trusts(ws, t.w, live, doc, u)
    ensures Hash(t.w.server[u].memo.content) in t.seen + t.blind
  {
  }

  /** In every run, a push of document `u` replaces a server text that was never handed out nor agreed
      on exactly when the file was moved since the last sync and the server performs the move, or the
      text was recorded from a record whose export does not read as that and is on record still. */
  lemma UnseenIsOverwritten(ws: Workspace, u: Uid, t0: Trail, actions: seq<Action>, live: set<Uid>, doc: LocalDoc)
    requires Initial(t0) && doc.uid == Some(u)
    ensures var t := Run(ws, u, t0, actions);
            Unseen(t, u) ==>
              && (Replaces(t.w, Effect(ws, t.w, PushStep(live, doc)), u) <==>
                    MovesOver(ws, t.w, live, doc, u) || Trusts(ws, t.w, live, doc, u))
              && (Trusts(ws, t.w, live, doc, u) ==> Hash(t.w.server[u].memo.content) in t.blind)
  {
    var t := Run(ws, u, t0, actions);
    RunKeepsInv(ws, t0, u, actions);
    PushReplaces(ws, t.w, u, live, doc);
    if Trusts(ws, t.w, live, doc, u) { TrustedIsKnown(ws, t, u, live, doc); }
  }

  /** Every record that a step of the run hands out for `u` reads as the server's text. */
  predicate Legible(ws: Workspace, u: Uid, t: Trail, actions: seq<Action>)
    decreases |actions|
  {
    actions != [] ==>
      && (var handed := Handed(ws, t.w, actions[0], u); handed.Some? ==> Readable(ws, handed.value))
      && Legible(ws, u, Step(ws, u, t, actions[0]), actions[1..])
  }

  lemma {:induction false} LegibleIsNeverBlind(ws: Workspace, u: Uid, t: Trail, actions: seq<Action>)
    requires Legible(ws, u, t, actions)
    ensures Run(ws, u, t, actions).blind == t.blind
    decreases |actions|
  {
    if actions != [] { LegibleIsNeverBlind(ws, u, Step(ws, u, t, actions[0]), actions[1..]); }
  }

  /** So as long as the file sits where it was last synced and everything handed out read as the
      server's text, nothing unseen is ever overwritten. */
  lemma NoLostUpdateWithoutMove(ws: Workspace, u: Uid, t0: Trail, actions: seq<Action>, live: set<Uid>, doc: LocalDoc)
    requires Initial(t0) && doc.uid == Some(u) && Legible(ws, u, t0, actions)
    requires var memos := Run(ws, u, t0, actions).w.loc.memos; u in memos ==> memos[u].path == doc.path
    ensures var t := Run(ws, u, t0, actions);
            Replaces(t.w, Effect(ws, t.w, PushStep(live, doc)), u) ==> Hash(t.w.server[u].memo.content) in t.seen
  {
    UnseenIsOverwritten(ws, u, t0, actions, live, doc);
    LegibleIsNeverBlind(ws, u, t0, actions);
  }

  // The runs that lose a server text.

  function Nothing(): Trail { Trail(World(map[], 0, Local(map[], map[], map[])), map[], {}, {}) }

  lemma OneStep(ws: Workspace, t: Trail, a: Action)
    ensures Run(ws, 0, t, [a]) == Step(ws, 0, t, a)
  {
    assert [a][1..] == [];
    assert Run(ws, 0, Step(ws, 0, t, a), []) == Step(ws, 0, t, a);
  }

  lemma ThreeSteps(ws: Workspace, t: Trail, a: Action, b: Action, c: Action)
    ensures Run(ws, 0, t, [a] + [b] + [c]) == Step(ws, 0, Step(ws, 0, Step(ws, 0, t, a), b), c)
  {
    RunConcat(ws, 0, t, [a] + [b], [c]);
    RunConcat(ws, 0, t, [a], [b]);
    OneStep(ws, t, a);
    OneStep(ws, Step(ws, 0, t, a), b);
    OneStep(ws, Step(ws, 0, Step(ws, 0, t, a), b), c);
  }

  /** The file a document has after it was pulled and stamped. */
  function PulledFile(ws: Workspace, m: Memo): File { Restamped(ws, 0, m.docType, FileOf(ws, 0, m)) }

  function PulledWorld(ws: Workspace, m: Memo): World {
    World(map[0 := Remote(m, true)], 1, Local(map[ws.PathOf(m) := PulledFile(ws, m)], map[], map[0 := Baseline(ws, m)]))
  }

  function Pulled(ws: Workspace, m: Memo): Trail {
    Trail(PulledWorld(ws, m), map[0 := Baseline(ws, m)], {Hash(BodyOf(ws, m))},
          if Readable(ws, m) then {} else {Hash(m.content)})
  }

  /** A document is created on the server and pulled. */
  function PullRun(m: Memo): seq<Action> {
    ([ServerChange(0, m, true)] + [PullStep(0, m)] + [StampStep(0)]) + [Save]
  }

  lemma NewlyPulled(ws: Workspace, m: Memo)
    requires !m.docType.Pdf?
    ensures var t := Step(ws, 0, Nothing(), ServerChange(0, m, true));
            Step(ws, 0, t, PullStep(0, m)) ==
            Pulled(ws, m).(w := PulledWorld(ws, m).(loc :=
                Local(map[ws.PathOf(m) := FileOf(ws, 0, m)], map[], map[0 := Baseline(ws, m)])),
                           saved := map[])
  {
    var t := Step(ws, 0, Nothing(), ServerChange(0, m, true));
    var loc := PullMemo(ws, OnTree(t.w), 0, m).loc;
    assert loc == Local(map[ws.PathOf(m) := FileOf(ws, 0, m)], map[], map[0 := Baseline(ws, m)]);
    assert Handed(ws, t.w, PullStep(0, m), 0) == Some(m) && Agreed(ws, t.w, PullStep(0, m), 0) == {};
  }

  lemma NewlyStamped(ws: Workspace, t: Trail, m: Memo)
    requires t.w.loc == Local(map[ws.PathOf(m) := FileOf(ws, 0, m)], map[], map[0 := Baseline(ws, m)])
    ensures Step(ws, 0, t, StampStep(0)) == t.(w := t.w.(loc := PulledWorld(ws, m).loc))
  {
    assert StampOne(ws, OnTree(t.w), 0).loc.files == map[ws.PathOf(m) := PulledFile(ws, m)];
  }

  lemma PullRunEnds(ws: Workspace, m: Memo)
    requires !m.docType.Pdf?
    ensures Run(ws, 0, Nothing(), PullRun(m)) == Pulled(ws, m)
  {
    NewlyPulled(ws, m);
    var t2 := Step(ws, 0, Step(ws, 0, Nothing(), ServerChange(0, m, true)), PullStep(0, m));
    NewlyStamped(ws, t2, m);
    ThreeSteps(ws, Nothing(), ServerChange(0, m, true), PullStep(0, m), StampStep(0));
    RunConcat(ws, 0, Nothing(), [ServerChange(0, m, true)] + [PullStep(0, m)] + [StampStep(0)], [Save]);
    OneStep(ws, Step(ws, 0, t2, StampStep(0)), Save);
  }

  /** A document is pulled, then edited on the server, while its file is only renamed. */
  function RenameRun(ws: Workspace, m: Memo, edit: string, q: Path): seq<Action> {
    PullRun(m)
    + ([ServerChange(0, m.(content := edit), true)] + [LocalChange(map[q := PulledFile(ws, m)], map[])] + [Load])
  }

  lemma RenameRunEnds(ws: Workspace, m: Memo, edit: string, q: Path)
    requires !m.docType.Pdf?
    ensures Run(ws, 0, Nothing(), RenameRun(ws, m, edit, q)) ==
            Pulled(ws, m).(w := World(map[0 := Remote(m.(content := edit), true)], 1,
                                      Local(map[q := PulledFile(ws, m)], map[], map[0 := Baseline(ws, m)])))
  {
    PullRunEnds(ws, m);
    var a, b := ServerChange(0, m.(content := edit), true), LocalChange(map[q := PulledFile(ws, m)], map[]);
    RunConcat(ws, 0, Nothing(), PullRun(m), [a] + [b] + [Load]);
    ThreeSteps(ws, Pulled(ws, m), a, b, Load);
  }

  /** The failing run: the push after it sends the old text back over the server's edit, which was
      never handed out. */
  lemma MoveLosesServerEdit(ws: Workspace, m: Memo, edit: string, q: Path)
    requires !m.docType.Pdf? && !ws.extType(q).Pdf? && q != ws.PathOf(m)
    requires Hash(edit) != Hash(BodyOf(ws, m)) && Hash(edit) != LocalHash(PulledFile(ws, m))
    requires ws.relPath(ws.derive(q).0, ws.derive(q).1, m.docType) == q
    ensures Initial(Nothing())
    ensures var t := Run(ws, 0, Nothing(), RenameRun(ws, m, edit, q));
            var body := PulledFile(ws, m).body;
            var w := Effect(ws, t.w, PushStep({0}, LocalDoc(q, body, Some(0), Some(0))));
            Unseen(t, 0) && Replaces(t.w, w, 0) && 0 in w.server && w.server[0].memo.content == body
  {
    RenameRunEnds(ws, m, edit, q);
    var t := Run(ws, 0, Nothing(), RenameRun(ws, m, edit, q));
    var doc := LocalDoc(q, PulledFile(ws, m).body, Some(0), Some(0));
    assert MovesOver(ws, t.w, {0}, doc, 0);
    PushReplaces(ws, t.w, 0, {0}, doc);
  }

  /** A document is pulled and pushed with nothing edited: its text on the server is replaced exactly
      if the file does not show it, and it was never handed out exactly if it is not readable. */
  lemma PullThenPushReplaces(ws: Workspace, m: Memo)
    requires !m.docType.Pdf? && !ws.extType(ws.PathOf(m)).Pdf?
    ensures var t := Run(ws, 0, Nothing(), PullRun(m));
            var doc := LocalDoc(ws.PathOf(m), PulledFile(ws, m).body, Some(0), Some(0));
            && (Replaces(t.w, Effect(ws, t.w, PushStep({0}, doc)), 0) <==>
                LocalHash(PulledFile(ws, m)) != Hash(m.content))
            && (Unseen(t, 0) <==> !Readable(ws, m))
  {
    PullRunEnds(ws, m);
    PushReplaces(ws, PulledWorld(ws, m), 0, {0}, LocalDoc(ws.PathOf(m), PulledFile(ws, m).body, Some(0), Some(0)));
  }

  /** A pulled document is edited here and on the server; a push reports the conflict, and the
      sidecar is deleted. */
  function ConflictRun(ws: Workspace, m0: Memo, doc: LocalDoc, m: Memo): seq<Action> {
    PullRun(m0) + ([Edited(doc)] + [ServerChange(0, m, true)] + [Load])
    + ([PushStep({0}, doc)] + [Save] + [Edited(doc)])
  }

  /** The edits on both sides, and the trail they leave. */
  function Edited(doc: LocalDoc): Action { LocalChange(map[doc.path := File(doc.content, doc.marker)], map[]) }

  lemma EditsEnd(ws: Workspace, m0: Memo, doc: LocalDoc, m: Memo)
    requires !m0.docType.Pdf?
    ensures var t := Run(ws, 0, Nothing(), PullRun(m0) + ([Edited(doc)] + [ServerChange(0, m, true)] + [Load]));
            && t.w.server == map[0 := Remote(m, true)] && t.w.loc.memos == map[0 := Baseline(ws, m0)]
            && t.seen == {Hash(BodyOf(ws, m0))}
  {
    PullRunEnds(ws, m0);
    RunConcat(ws, 0, Nothing(), PullRun(m0), [Edited(doc)] + [ServerChange(0, m, true)] + [Load]);
    ThreeSteps(ws, Pulled(ws, m0), Edited(doc), ServerChange(0, m, true), Load);
  }

  lemma ConflictRunEnds(ws: Workspace, m0: Memo, doc: LocalDoc, m: Memo)
    requires !m0.docType.Pdf? && !ws.extType(ws.PathOf(m0)).Pdf? && doc.uid == Some(0) && doc.path == ws.PathOf(m0)
    requires Hash(doc.content) != Hash(m0.content) && Hash(m.content) != Hash(m0.content)
    ensures var t := Run(ws, 0, Nothing(), ConflictRun(ws, m0, doc, m));
            && t.w.server == map[0 := Remote(m, true)] && doc.path !in t.w.loc.sidecars
            && t.w.loc.memos == map[0 := Baseline(ws, m0).(conflict := Some(Hash(m.content)))]
            && (Hash(doc.content) != Hash(m.content) ==> t.seen == {Hash(BodyOf(ws, m0)), Hash(BodyOf(ws, m))})
  {
    var first := PullRun(m0) + ([Edited(doc)] + [ServerChange(0, m, true)] + [Load]);
    var t := Run(ws, 0, Nothing(), first);
    EditsEnd(ws, m0, doc, m);
    RunConcat(ws, 0, Nothing(), first, [PushStep({0}, doc)] + [Save] + [Edited(doc)]);
    ThreeSteps(ws, t, PushStep({0}, doc), Save, Edited(doc));
    ConflictStep(ws, t, m0, doc, m);
  }

  lemma ConflictStep(ws: Workspace, t: Trail, m0: Memo, doc: LocalDoc, m: Memo)
    requires !m0.docType.Pdf? && !ws.extType(ws.PathOf(m0)).Pdf? && doc.uid == Some(0) && doc.path == ws.PathOf(m0)
    requires Hash(doc.content) != Hash(m0.content) && Hash(m.content) != Hash(m0.content)
    requires t.w.server == map[0 := Remote(m, true)] && t.w.loc.memos == map[0 := Baseline(ws, m0)]
    ensures var r := Step(ws, 0, t, PushStep({0}, doc));
            && r.w.server == t.w.server
            && r.w.loc.memos == map[0 := Baseline(ws, m0).(conflict := Some(Hash(m.content)))]
            && (Hash(doc.content) != Hash(m.content) ==> r.seen == t.seen + {Hash(BodyOf(ws, m))})
  {
    var s := OnWorld(t.w);
    assert PushDoc(ws, s, {0}, doc).0 == Reopened(ws, s, doc, 0);
    assert Reopened(ws, s, doc, 0).w.loc != t.w.loc;
  }

  /** The second failing run, with no move: after it the server's text is replaced by the file's; and
      it was never handed out exactly if its record is not readable, a PDF in particular. */
  lemma ConflictLosesUnreadText(ws: Workspace, m0: Memo, doc: LocalDoc, m: Memo)
    requires !m0.docType.Pdf? && !ws.extType(ws.PathOf(m0)).Pdf? && doc.uid == Some(0) && doc.path == ws.PathOf(m0)
    requires Hash(doc.content) != Hash(m0.content) && Hash(doc.content) != Hash(m.content)
    requires Hash(m.content) != Hash(m0.content) && Hash(m.content) != Hash(BodyOf(ws, m0))
    ensures var t := Run(ws, 0, Nothing(), ConflictRun(ws, m0, doc, m));
            var w := Effect(ws, t.w, PushStep({0}, doc));
            && Replaces(t.w, w, 0) && 0 in w.server && w.server[0].memo.content == doc.content
            && (Unseen(t, 0) <==> !Readable(ws, m))
  {
    ConflictRunEnds(ws, m0, doc, m);
    var t := Run(ws, 0, Nothing(), ConflictRun(ws, m0, doc, m));
    assert Trusts(ws, t.w, {0}, doc, 0);
    PushReplaces(ws, t.w, 0, {0}, doc);
  }
}
