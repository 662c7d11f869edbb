/** Pull never loses an unpushed edit, and always reports one that the server's side disagrees with. */
module PullSafety {
  import opened Options
  import opened Checkout
  import opened PullSteps

  /** A tracked document whose file was changed locally since the last sync. */
  predicate Modified(loc: Local, u: Uid) {
    && u in loc.memos && !loc.memos[u].docType.Pdf? && loc.memos[u].path in loc.files
    && LocalHash(loc.files[loc.memos[u].path]) != loc.memos[u].hash
  }

  /** An unpushed edit: the document, what its baseline records, and the edited file. */
  datatype Edit = Edit(uid: Uid, path: Path, docType: DocType, hash: string, file: File)
  {
    predicate Real() { !docType.Pdf? && LocalHash(file) != hash }

    /** The edit after its file was stamped with the right marker. */
    function Stamp(ws: Workspace): Edit { this.(file := Restamped(ws, uid, docType, file)) }
  }

  /** The edit is in the tree as recorded, and no other tracked document is recorded at its path. */
  predicate Holds(loc: Local, e: Edit) {
    && e.uid in loc.memos && e.path in loc.files && loc.files[e.path] == e.file
    && loc.memos[e.uid].path == e.path && loc.memos[e.uid].docType == e.docType && loc.memos[e.uid].hash == e.hash
    && forall v | v in loc.memos && v != e.uid :: loc.memos[v].path != e.path
  }

  /** A listed document is harmless to the edit: it is its own and no PDF, or maps elsewhere. */
  predicate Harmless(ws: Workspace, e: Edit, v: Uid, m: Memo) {
    if v == e.uid then !m.docType.Pdf? else ws.PathOf(m) != e.path
  }

  predicate Spares(ws: Workspace, listing: Listing, e: Edit) {
    forall x | x in listing :: Harmless(ws, e, x.0, x.1)
  }

  predicate Differs(ws: Workspace, m: Memo, e: Edit) {
    Hash(m.content) != e.hash || ws.PathOf(m) != e.path
  }

  predicate DiffersIn(ws: Workspace, listing: Listing, e: Edit) {
    exists x | x in listing :: x.0 == e.uid && Differs(ws, x.1, e)
  }

  predicate Reported(s: PullState, e: Edit) {
    e.uid in s.log.conflicts || e.path in s.log.orphaned
  }

  /** The edit is still there in `r`, and is reported exactly if it was in `s` or `why`. */
  ghost predicate Survives(s: PullState, r: PullState, e: Edit, why: bool) {
    Holds(r.loc, e) && (Reported(r, e) <==> Reported(s, e) || why)
  }

  lemma RecentSurvives(ws: Workspace, s: PullState, recent: Listing, e: Edit)
    requires Holds(s.loc, e) && e.Real() && Spares(ws, recent, e)
    ensures Survives(s, PullRecent(ws, s, recent), e, DiffersIn(ws, recent, e))
    decreases |recent|
  {
    if recent != [] {
      var x, rest := recent[0], recent[1..];
      assert x in recent && Harmless(ws, e, x.0, x.1);
      var s1 := PullMemo(ws, s, x.0, x.1);
      assert Survives(s, s1, e, x.0 == e.uid && Differs(ws, x.1, e));
      assert recent == [x] + rest;
      RecentSurvives(ws, s1, rest, e);
    }
  }

  lemma ReconcileOneSurvives(ws: Workspace, s: PullState, alive: map<Uid, Memo>, v: Uid, e: Edit)
    requires Holds(s.loc, e) && e.Real()
    requires v in alive ==> Harmless(ws, e, v, alive[v])
    ensures Survives(s, ReconcileOne(ws, s, alive, v), e,
                     v == e.uid && (e.uid !in alive || Differs(ws, alive[e.uid], e)))
  {
  }

  lemma ReconcileSurvives(ws: Workspace, s: PullState, alive: map<Uid, Memo>, uids: seq<Uid>, e: Edit)
    requires Holds(s.loc, e) && e.Real()
    requires forall v | v in alive :: Harmless(ws, e, v, alive[v])
    ensures Survives(s, ReconcileAll(ws, s, alive, uids), e,
                     e.uid in uids && (e.uid !in alive || Differs(ws, alive[e.uid], e)))
    decreases |uids|
  {
    if uids != [] {
      var s1 := ReconcileOne(ws, s, alive, uids[0]);
      ReconcileOneSurvives(ws, s, alive, uids[0], e);
      assert uids == [uids[0]] + uids[1..];
      ReconcileSurvives(ws, s1, alive, uids[1..], e);
    }
  }

  lemma AdoptSurvives(ws: Workspace, s: PullState, current: Listing, e: Edit)
    requires Holds(s.loc, e) && Spares(ws, current, e)
    ensures Survives(s, AdoptAll(ws, s, current), e, false)
    decreases |current|
  {
    if current != [] {
      assert current[0] in current && Harmless(ws, e, current[0].0, current[0].1);
      AdoptSurvives(ws, AdoptOne(ws, s, current[0].0, current[0].1), current[1..], e);
    }
  }

  /** The uids of a list in ascending order, each once. */
  predicate Ascending(uids: seq<Uid>) { forall i, j | 0 <= i < j < |uids| :: uids[i] < uids[j] }

  lemma AscendingRest(uids: seq<Uid>)
    requires uids != [] && Ascending(uids)
    ensures Ascending(uids[1..]) && uids[0] !in uids[1..] && forall u :: u in uids <==> u == uids[0] || u in uids[1..]
  {
    assert uids == [uids[0]] + uids[1..];
  }

  /** Stamping writes the edited file anew once, if its marker is not the document's own. */
  lemma StampSurvives(ws: Workspace, s: PullState, uids: seq<Uid>, e: Edit)
    requires Holds(s.loc, e) && Ascending(uids)
    ensures Survives(s, StampAll(ws, s, uids), if e.uid in uids then e.Stamp(ws) else e, false)
    decreases |uids|
  {
    if uids != [] {
      AscendingRest(uids);
      var e1 := if uids[0] == e.uid then e.Stamp(ws) else e;
      assert Survives(s, StampOne(ws, s, uids[0]), e1, false);
      StampSurvives(ws, StampOne(ws, s, uids[0]), uids[1..], e1);
    }
  }

  /** An edited, tracked, non-PDF document keeps its recorded path, its baseline hash and its file
      through a whole pull, whatever the two listings hold, provided no other document is recorded
      at or headed for its path; only a missing or wrong marker is put right, so the text is kept
      exactly if the marker was right or the text reads back as it is written. The edit is reported
      exactly if the server changed, moved or dropped the document. */
  lemma PullKeepsEdits(ws: Workspace, s: PullState, recent: Listing, current: Listing, e: Edit)
    requires Holds(s.loc, e) && e.Real()
    requires Spares(ws, recent, e) && Spares(ws, current, e)
    ensures var alive := Alive(current);
            Survives(s, Pull(ws, s, recent, current), e.Stamp(ws),
                     DiffersIn(ws, recent, e) || e.uid !in alive || Differs(ws, alive[e.uid], e))
    ensures e.Stamp(ws).file.body == e.file.body <==>
              e.file.marker == Some(e.uid) || ws.reread(e.docType, e.file.body) == e.file.body
  {
    var alive := Alive(current);
    var s1 := PullRecent(ws, s, recent);
    RecentSurvives(ws, s, recent, e);
    forall v | v in alive ensures Harmless(ws, e, v, alive[v]) {
      assert (v, alive[v]) in current;
    }
    var s2 := ReconcileAll(ws, s1, alive, Sorted(s1.loc.memos.Keys));
    ReconcileSurvives(ws, s1, alive, Sorted(s1.loc.memos.Keys), e);
    var s3 := AdoptAll(ws, s2, current);
    AdoptSurvives(ws, s2, current, e);
    StampSurvives(ws, s3, Sorted(s3.loc.memos.Keys), e);
  }

  /** Another document's turn writes a file at its mapped path. */
  predicate Lands(ws: Workspace, loc: Local, v: Uid, m: Memo) {
    v !in loc.memos ||
    var prev := loc.memos[v];
    !InSync(ws, prev, m) &&
    (AnyPdf(prev, m) || (prev.path in loc.files && LocalHash(loc.files[prev.path]) == prev.hash))
  }

  /** The path condition is exact: another document's turn leaves the edit in place if and only
      if that document does not land on its path. Nothing checks what sits at the target. */
  lemma TurnKeepsEditExactly(ws: Workspace, s: PullState, v: Uid, m: Memo, e: Edit)
    requires Holds(s.loc, e) && v != e.uid
    ensures Holds(PullMemo(ws, s, v, m).loc, e) <==> !(Lands(ws, s.loc, v, m) && ws.PathOf(m) == e.path)
    ensures Holds(ReconcileOne(ws, s, map[v := m], v).loc, e) <==>
            !(v in s.loc.memos && Lands(ws, s.loc, v, m) && ws.PathOf(m) == e.path)
    ensures Holds(AdoptOne(ws, s, v, m).loc, e) <==> !(v !in s.loc.memos && ws.PathOf(m) == e.path)
  {
    assert v in PullMemo(ws, s, v, m).loc.memos;
    assert v in s.loc.memos ==> v in ReconcileOne(ws, s, map[v := m], v).loc.memos;
    assert v in AdoptOne(ws, s, v, m).loc.memos;
  }

  /** An unpushed edit that is lost: a document new on the server maps to the edited file's path. */
  lemma EditIsOverwritten(ws: Workspace, v: Uid, m: Memo, e: Edit, log: PullLog)
    requires v != e.uid && e.Real() && e.path == ws.PathOf(m) && LocalHash(e.file) != Hash(BodyOf(ws, m))
    ensures var s := PullState(Local(map[e.path := e.file], map[],
                                     map[e.uid := MemoState(e.path, e.docType, e.hash, None)]), log);
            var r := PullRecent(ws, s, [(v, m)]);
            Modified(s.loc, e.uid) && forall p | p in r.loc.files :: LocalHash(r.loc.files[p]) != LocalHash(e.file)
  {
    var s := PullState(Local(map[e.path := e.file], map[],
                             map[e.uid := MemoState(e.path, e.docType, e.hash, None)]), log);
    var listing: Listing := [(v, m)];
    assert PullRecent(ws, s, listing) == PullMemo(ws, s, v, m) by { assert listing[1..] == []; }
  }
}
