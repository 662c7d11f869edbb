/** Runs of the whole system: users change files, sidecars and server documents at will, and the
    steps of pull and push happen in any order in between, including commands cut short. What
    push replaces on the server was handed out or sent before, except after a local move and
    except for records whose export does not read as the server's text. */
module SyncRuns {
  import opened Options
  import opened Checkout
  import opened PullSteps
  import opened PushSteps

  /** The world and the baseline saved on disk; and about one document, every text that a step wrote
      into its file or sidecar or that its file had in common with the server after a push (`seen`),
      and every hash that was recorded for it from a record whose export does not read as that (`blind`). */
  datatype Trail = Trail(w: World, saved: map<Uid, MemoState>, seen: set<string>, blind: set<string>)

  datatype Action =
    | LocalChange(files: map<Path, File>, sidecars: map<Path, string>)
    | ServerChange(uid: Uid, memo: Memo, live: bool)
    | ServerDelete(uid: Uid)
    | Load
    | Save
    | PullStep(uid: Uid, memo: Memo)
    | ReconcileStep(uid: Uid, alive: map<Uid, Memo>)
    | AdoptStep(uid: Uid, memo: Memo)
    | StampStep(uid: Uid)
    | PushStep(liveUids: set<Uid>, doc: LocalDoc)
    | ArchiveStep(liveUids: set<Uid>, claimed: set<Uid>, uid: Uid)

  function OnTree(w: World): PullState { PullState(w.loc, PullLog([], [], [])) }

  function OnWorld(w: World): PushState { PushState(w, PushLog([], [], [], []), true) }

  function Effect(ws: Workspace, w: World, a: Action): World {
    match a
    case LocalChange(files, sidecars) => w.(loc := w.loc.(files := files, sidecars := sidecars))
    case ServerChange(v, m, live) =>
      World(w.server[v := Remote(m, live)], if v < w.next then w.next else v + 1, w.loc)
    case ServerDelete(v) => w.(server := Without(w.server, v))
    case PullStep(v, m) => w.(loc := PullMemo(ws, OnTree(w), v, m).loc)
    case ReconcileStep(v, alive) => w.(loc := ReconcileOne(ws, OnTree(w), alive, v).loc)
    case AdoptStep(v, m) => w.(loc := AdoptOne(ws, OnTree(w), v, m).loc)
    case StampStep(v) => w.(loc := StampOne(ws, OnTree(w), v).loc)
    case PushStep(live, doc) => PushDoc(ws, OnWorld(w), live, doc).0.w
    case ArchiveStep(live, claimed, v) => ArchiveOne(OnWorld(w), live, claimed, v).w
    case Load => w
    case Save => w
  }

  /** The record whose text a step writes into the file or the sidecar of document `u`. */
  function Handed(ws: Workspace, w: World, a: Action, u: Uid): Option<Memo> {
    var r := Effect(ws, w, a);
    match a
    case PullStep(v, m) => if v == u && r.loc != w.loc then Some(m) else None
    case AdoptStep(v, m) => if v == u && r.loc != w.loc then Some(m) else None
    case ReconcileStep(v, alive) => if v == u && u in alive && r.loc != w.loc then Some(alive[u]) else None
    case PushStep(live, doc) =>
      if doc.uid == Some(u) && r.loc != w.loc && u in r.server
         && PushDoc(ws, OnWorld(w), live, doc).0.log.conflicts != [] then Some(r.server[u].memo) else None
    case _ => None
  }

  /** The text of the file that a push step found to be, or made, the server's for document `u`. */
  function Agreed(ws: Workspace, w: World, a: Action, u: Uid): set<string> {
    var r := Effect(ws, w, a);
    if a.PushStep? && PushDoc(ws, OnWorld(w), a.liveUids, a.doc).1 == Some(u)
       && u in r.server && Hash(r.server[u].memo.content) == Hash(a.doc.content)
    then {Hash(a.doc.content)} else {}
  }

  function Delivered(ws: Workspace, handed: Option<Memo>): set<string> {
    if handed.Some? then {Hash(BodyOf(ws, handed.value))} else {}
  }

  /** What was recorded from an unreadable record. PDF baselines take no part in content pushes. */
  function Misread(ws: Workspace, memos: map<Uid, MemoState>, handed: Option<Memo>, u: Uid): set<string> {
    if handed.Some? && !Readable(ws, handed.value) && u in memos && !memos[u].docType.Pdf?
    then {Hash(handed.value.content)} else {}
  }

  predicate ByUser(a: Action) { a.LocalChange? || a.ServerChange? || a.ServerDelete? }

  function Step(ws: Workspace, u: Uid, t: Trail, a: Action): Trail {
    var w, handed := Effect(ws, t.w, a), Handed(ws, t.w, a, u);
    if ByUser(a) then t.(w := w)
    else if a.Load? then t.(w := w.(loc := w.loc.(memos := t.saved)))
    else if a.Save? then t.(saved := w.loc.memos)
    else Trail(w, t.saved, t.seen + Delivered(ws, handed) + Agreed(ws, t.w, a, u),
               t.blind + Misread(ws, w.loc.memos, handed, u))
  }

  function Run(ws: Workspace, u: Uid, t: Trail, actions: seq<Action>): Trail
    decreases |actions|
  {
    if actions == [] then t else Run(ws, u, Step(ws, u, t, actions[0]), actions[1..])
  }

  lemma {:induction false} RunConcat(ws: Workspace, u: Uid, t: Trail, a: seq<Action>, b: seq<Action>)
    ensures Run(ws, u, t, a + b) == Run(ws, u, Run(ws, u, t, a), b)
    decreases |a|
  {
    if a == [] {
      assert a + b == b;
    } else {
      assert (a + b)[0] == a[0] && (a + b)[1..] == a[1..] + b;
      RunConcat(ws, u, Step(ws, u, t, a[0]), a[1..], b);
    }
  }

  /** Before the first sync: nothing is tracked and nothing was seen. */
  predicate Initial(t: Trail) {
    t.saved == map[] && t.w.loc.memos == map[] && t.seen == {} && t.blind == {}
  }

  /** The document's text is exchanged: neither its baseline nor its file name says PDF. */
  predicate Textual(ws: Workspace, ms: MemoState) { !ms.docType.Pdf? && !ws.extType(ms.path).Pdf? }

  /** The baseline names texts that are known. */
  predicate Vouched(ws: Workspace, memos: map<Uid, MemoState>, u: Uid, known: set<string>) {
    u in memos && Textual(ws, memos[u]) ==>
      memos[u].hash in known && (memos[u].conflict.Some? ==> memos[u].conflict.value in known)
  }

  predicate Inv(ws: Workspace, t: Trail, u: Uid) {
    Vouched(ws, t.w.loc.memos, u, t.seen + t.blind) && Vouched(ws, t.saved, u, t.seen + t.blind)
  }

  /** What a record handed out adds to what is known, for a baseline that is no PDF's. */
  lemma HandedIsKnown(ws: Workspace, memos: map<Uid, MemoState>, m: Memo, u: Uid)
    requires u in memos && !memos[u].docType.Pdf?
    ensures Hash(m.content) in Delivered(ws, Some(m)) + Misread(ws, memos, Some(m), u)
  {
  }

  /** A step of pull records nothing for `u`, or the hash of the record it hands out. */
  predicate Records(ws: Workspace, a: map<Uid, MemoState>, b: map<Uid, MemoState>, handed: Option<Memo>, u: Uid) {
    u in b ==>
      || (u in a && b[u] == a[u])
      || (handed.Some? && b[u] == Baseline(ws, handed.value))
      || (handed.Some? && u in a && b[u] == a[u].(conflict := Some(Hash(handed.value.content))))
  }

  lemma RecordsVouch(ws: Workspace, a: map<Uid, MemoState>, b: map<Uid, MemoState>, handed: Option<Memo>, u: Uid,
                     known: set<string>)
    requires Records(ws, a, b, handed, u) && Vouched(ws, a, u, known)
    ensures Vouched(ws, b, u, known + Delivered(ws, handed) + Misread(ws, b, handed, u))
  {
    if handed.Some? && u in b && !b[u].docType.Pdf? { HandedIsKnown(ws, b, handed.value, u); }
  }

  lemma PullRecords(ws: Workspace, w: World, v: Uid, m: Memo, u: Uid)
    ensures Records(ws, w.loc.memos, Effect(ws, w, PullStep(v, m)).loc.memos, Handed(ws, w, PullStep(v, m), u), u)
  {
  }

  lemma AdoptRecords(ws: Workspace, w: World, v: Uid, m: Memo, u: Uid)
    ensures Records(ws, w.loc.memos, Effect(ws, w, AdoptStep(v, m)).loc.memos, Handed(ws, w, AdoptStep(v, m), u), u)
  {
  }

  lemma ReconcileRecords(ws: Workspace, w: World, v: Uid, alive: map<Uid, Memo>, u: Uid)
    ensures Records(ws, w.loc.memos, Effect(ws, w, ReconcileStep(v, alive)).loc.memos,
                    Handed(ws, w, ReconcileStep(v, alive), u), u)
  {
  }

  /** The record's text, as it reads, is in the file or the sidecar. */
  predicate Written(ws: Workspace, loc: Local, m: Memo, u: Uid) {
    || (ws.PathOf(m) in loc.files && loc.files[ws.PathOf(m)].body == BodyOf(ws, m))
    || (u in loc.memos && loc.memos[u].path in loc.sidecars && loc.sidecars[loc.memos[u].path] == BodyOf(ws, m))
  }

  lemma RecentIsWritten(ws: Workspace, w: World, m: Memo, u: Uid)
    ensures var r := PullMemo(ws, OnTree(w), u, m).loc; r == w.loc || Written(ws, r, m, u)
  {
  }

  lemma DriftedIsWritten(ws: Workspace, w: World, m: Memo, u: Uid)
    requires u in w.loc.memos
    ensures var r := ReconcileDrifted(ws, OnTree(w), u, m).loc; r == w.loc || Written(ws, r, m, u)
  {
  }

  /** Handing out is literal. */
  lemma HandedIsWritten(ws: Workspace, w: World, a: Action, u: Uid)
    requires Handed(ws, w, a, u).Some?
    ensures Written(ws, Effect(ws, w, a).loc, Handed(ws, w, a, u).value, u)
  {
    match a {
      case PullStep(_, m) => RecentIsWritten(ws, w, m, u);
      case ReconcileStep(_, alive) => if u in w.loc.memos { DriftedIsWritten(ws, w, alive[u], u); }
      case PushStep(live, doc) => PushedConflict(ws, w, live, doc, u);
      case AdoptStep(_, _) =>
    }
  }

  lemma PushedConflict(ws: Workspace, w: World, live: set<Uid>, doc: LocalDoc, u: Uid)
    requires Handed(ws, w, PushStep(live, doc), u).Some?
    ensures var r := Effect(ws, w, PushStep(live, doc));
            && u in r.loc.memos && r.loc.memos[u].path == doc.path
            && doc.path in r.loc.sidecars && r.loc.sidecars[doc.path] == BodyOf(ws, r.server[u].memo)
  {
    var s := OnWorld(w);
    assert u in live && u in s.w.loc.memos;
    if s.w.loc.memos[u].path != doc.path { MoveRebases(ws, s, doc, u); }
  }

  /** The move branch: it fails, or the server's answer is the baseline. */
  lemma MoveRebases(ws: Workspace, s: PushState, doc: LocalDoc, v: Uid)
    requires s.ok && v in s.w.loc.memos
    ensures var r := MoveDoc(ws, s, doc, v);
            if r.ok then
              && v in s.w.server && v in r.w.server
              && r.w.server[v].memo.content == s.w.server[v].memo.content
              && r.w.server[v].memo.docType == s.w.server[v].memo.docType
              && r.w.loc == s.w.loc.(memos := s.w.loc.memos[v := Rebased(ws, r.w.server[v].memo, doc.path)])
              && r.log == s.log
            else r.w.loc == s.w.loc && r.log == s.log
  {
  }

  /** The content half: the baseline stays, the conflict is the server's hash, or the file's text is pushed. */
  lemma ContentRecords(ws: Workspace, s: PushState, doc: LocalDoc, u: Uid)
    requires s.ok && u in s.w.loc.memos && s.w.loc.memos[u].path == doc.path
    ensures var r, prev := PushContent(ws, s, doc, u), s.w.loc.memos[u];
            || r.w.loc == s.w.loc
            || (u in r.w.server
                && r.w.loc.memos == s.w.loc.memos[u := prev.(conflict := Some(Hash(r.w.server[u].memo.content)))]
                && r.log.conflicts == s.log.conflicts + [doc.path] && r.w.loc.memos != s.w.loc.memos)
            || (u in r.w.server && Hash(r.w.server[u].memo.content) == Hash(doc.content)
                && r.w.loc.memos == s.w.loc.memos[u := Rebased(ws, r.w.server[u].memo, doc.path)])
    ensures PushContent(ws, s, doc, u).w.loc == s.w.loc && u in s.w.server && !s.w.loc.memos[u].docType.Pdf?
            && s.w.loc.memos[u].conflict == None && s.w.loc.memos[u].hash == Hash(s.w.server[u].memo.content) ==>
              Hash(doc.content) == s.w.loc.memos[u].hash && PushContent(ws, s, doc, u).w == s.w
  {
  }

  lemma TrackedVouched(ws: Workspace, w: World, live: set<Uid>, doc: LocalDoc, u: Uid, known: set<string>)
    requires doc.uid == Some(u) && Vouched(ws, w.loc.memos, u, known)
    ensures var a := PushStep(live, doc);
            var r, handed := Effect(ws, w, a), Handed(ws, w, a, u);
            Vouched(ws, r.loc.memos, u,
                    known + Delivered(ws, handed) + Agreed(ws, w, a, u) + Misread(ws, r.loc.memos, handed, u))
  {
    var s := OnWorld(w);
    if u in live && u in w.loc.memos {
      var s1 := if w.loc.memos[u].path != doc.path then MoveDoc(ws, s, doc, u) else s;
      MoveRebases(ws, s, doc, u);
      if s1.ok && !s1.w.loc.memos[u].docType.Pdf? && !ws.extType(doc.path).Pdf? {
        ContentRecords(ws, s1, doc, u);
        var r := Effect(ws, w, PushStep(live, doc));
        if u in r.server && r.loc.memos[u].conflict.Some? { HandedIsKnown(ws, r.loc.memos, r.server[u].memo, u); }
      }
    }
  }

  /** Nothing recorded about `u` changed. */
  predicate SameRecord(a: map<Uid, MemoState>, b: map<Uid, MemoState>, u: Uid) {
    (u in b <==> u in a) && (u in b ==> b[u] == a[u])
  }

  lemma OtherMoves(ws: Workspace, s: PushState, doc: LocalDoc, v: Uid, u: Uid)
    requires v != u
    ensures SameRecord(s.w.loc.memos, MoveDoc(ws, s, doc, v).w.loc.memos, u)
    ensures v in s.w.loc.memos ==> v in MoveDoc(ws, s, doc, v).w.loc.memos
  {
  }

  lemma OtherContent(ws: Workspace, s: PushState, doc: LocalDoc, v: Uid, u: Uid)
    requires v != u && v in s.w.loc.memos
    ensures SameRecord(s.w.loc.memos, PushContent(ws, s, doc, v).w.loc.memos, u)
  {
  }

  lemma OtherTrackedPush(ws: Workspace, s: PushState, live: set<Uid>, doc: LocalDoc, v: Uid, u: Uid)
    requires v != u
    ensures SameRecord(s.w.loc.memos, PushTracked(ws, s, live, doc, v).w.loc.memos, u)
  {
    OtherMoves(ws, s, doc, v, u);
    if v in live && v in s.w.loc.memos {
      var s1 := if s.w.loc.memos[v].path != doc.path then MoveDoc(ws, s, doc, v) else s;
      OtherContent(ws, s1, doc, v, u);
    }
  }

  lemma OtherPushes(ws: Workspace, w: World, live: set<Uid>, doc: LocalDoc, u: Uid)
    requires doc.uid != Some(u) && PushDoc(ws, OnWorld(w), live, doc).1 != Some(u)
    ensures SameRecord(w.loc.memos, Effect(ws, w, PushStep(live, doc)).loc.memos, u)
  {
    if doc.uid.Some? { OtherTrackedPush(ws, OnWorld(w), live, doc, doc.uid.value, u); }
  }

  lemma PushVouched(ws: Workspace, w: World, live: set<Uid>, doc: LocalDoc, u: Uid, known: set<string>)
    requires Vouched(ws, w.loc.memos, u, known)
    ensures var a := PushStep(live, doc);
            var r, handed := Effect(ws, w, a), Handed(ws, w, a, u);
            Vouched(ws, r.loc.memos, u,
                    known + Delivered(ws, handed) + Agreed(ws, w, a, u) + Misread(ws, r.loc.memos, handed, u))
  {
    if doc.uid == Some(u) {
      TrackedVouched(ws, w, live, doc, u, known);
    } else if PushDoc(ws, OnWorld(w), live, doc).1 != Some(u) {
      OtherPushes(ws, w, live, doc, u);
    }
  }

  lemma MoreKnown(ws: Workspace, memos: map<Uid, MemoState>, u: Uid, known: set<string>, more: set<string>)
    requires Vouched(ws, memos, u, known) && known <= more
    ensures Vouched(ws, memos, u, more)
  {
  }

  /** A step of pull or push keeps the baseline vouched for. */
  lemma StepVouched(ws: Workspace, w: World, u: Uid, a: Action, known: set<string>)
    requires Vouched(ws, w.loc.memos, u, known) && !ByUser(a) && !a.Load? && !a.Save?
    ensures var r, handed := Effect(ws, w, a), Handed(ws, w, a, u);
            Vouched(ws, r.loc.memos, u,
                    known + Delivered(ws, handed) + Agreed(ws, w, a, u) + Misread(ws, r.loc.memos, handed, u))
  {
    var r, handed := Effect(ws, w, a), Handed(ws, w, a, u);
    if a.PushStep? {
      PushVouched(ws, w, a.liveUids, a.doc, u, known);
    } else {
      TreeStepRecords(ws, w, u, a);
      RecordsVouch(ws, w.loc.memos, r.loc.memos, handed, u, known);
    }
  }

  lemma TreeStepRecords(ws: Workspace, w: World, u: Uid, a: Action)
    requires !ByUser(a) && !a.Load? && !a.Save? && !a.PushStep?
    ensures Records(ws, w.loc.memos, Effect(ws, w, a).loc.memos, Handed(ws, w, a, u), u)
    ensures Agreed(ws, w, a, u) == {}
  {
    match a {
      case PullStep(v, m) => PullRecords(ws, w, v, m, u);
      case AdoptStep(v, m) => AdoptRecords(ws, w, v, m, u);
      case ReconcileStep(v, alive) => ReconcileRecords(ws, w, v, alive, u);
      case StampStep(v) =>
      case ArchiveStep(live, claimed, v) =>
    }
  }

  /** Every step of users, pull and push keeps: what the baseline names was handed out or agreed on
      before, or was recorded unread. */
  lemma StepKeepsInv(ws: Workspace, t: Trail, u: Uid, a: Action)
    requires Inv(ws, t, u)
    ensures Inv(ws, Step(ws, u, t, a), u)
  {
    if !ByUser(a) && !a.Load? && !a.Save? {
      var known, r, handed := t.seen + t.blind, Effect(ws, t.w, a), Handed(ws, t.w, a, u);
      StepVouched(ws, t.w, u, a, known);
      var more := known + Delivered(ws, handed) + Agreed(ws, t.w, a, u) + Misread(ws, r.loc.memos, handed, u);
      assert more == Step(ws, u, t, a).seen + Step(ws, u, t, a).blind;
      MoreKnown(ws, t.saved, u, known, more);
    }
  }

  lemma RunKeepsInv(ws: Workspace, t: Trail, u: Uid, actions: seq<Action>)
    requires Inv(ws, t, u)
    ensures Inv(ws, Run(ws, u, t, actions), u)
    decreases |actions|
  {
    if actions != [] {
      StepKeepsInv(ws, t, u, actions[0]);
      RunKeepsInv(ws, Step(ws, u, t, actions[0]), u, actions[1..]);
    }
  }
}
