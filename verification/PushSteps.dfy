/** The per-document decisions of `memogit push`, as functions from one world to the next. */
module PushSteps {
  import opened Options
  import opened Checkout

  /** The server's documents, the next uid it will hand out, and the local side. */
  datatype World = World(server: map<Uid, Remote>, next: Uid, loc: Local)

  datatype PushLog = PushLog(created: seq<Uid>, archived: seq<Uid>, conflicts: seq<Path>, orphaned: seq<Path>)

  /** `ok` turns false when a call fails: the command stops there. */
  datatype PushState = PushState(w: World, log: PushLog, ok: bool)

  predicate Live(w: World, u: Uid) { u in w.server && w.server[u].live }

  function LiveSet(w: World): set<Uid> {
    set u | u in w.server && w.server[u].live
  }

  /** The server keeps (folder, title) unique, archived documents included. */
  predicate PathTaken(server: map<Uid, Remote>, folder: string, title: string, except: Option<Uid>) {
    exists v | v in server ::
      Some(v) != except && server[v].memo.folder == folder && server[v].memo.title == title
  }

  function Aborted(s: PushState): PushState { s.(ok := false) }

  function WithMemo(w: World, u: Uid, ms: MemoState): World {
    w.(loc := w.loc.(memos := w.loc.memos[u := ms]))
  }

  function WithContent(w: World, u: Uid, m: Memo): World
    requires u in w.server
  {
    w.(server := w.server[u := w.server[u].(memo := m)])
  }

  /** A fresh baseline from a server answer, keeping the local path. */
  function Rebased(ws: Workspace, m: Memo, path: Path): MemoState {
    Baseline(ws, m).(path := path)
  }

  /** A file that belongs to no known document becomes one; generated PDF stubs never do. */
  function PushNew(ws: Workspace, s: PushState, doc: LocalDoc): (PushState, Option<Uid>) {
    var w := s.w;
    var docType := ws.extType(doc.path);
    var (folder, title) := ws.derive(doc.path);
    if docType.Pdf? then (s, None)
    else if PathTaken(w.server, folder, title, None) then (Aborted(s), None)
    else
      var u, m := w.next, Memo(folder, title, docType, doc.content);
      var loc := w.loc.(files := w.loc.files[doc.path := Stamped(ws, u, docType, ws.strip(doc.content))],
                        memos := w.loc.memos[u := Rebased(ws, m, doc.path)]);
      (s.(w := World(w.server[u := Remote(m, true)], u + 1, loc),
          log := s.log.(created := s.log.created + [u])), Some(u))
  }

  /** Hands the server text over for merging and records the conflict. */
  function Reopened(ws: Workspace, s: PushState, doc: LocalDoc, u: Uid): PushState
    requires u in s.w.loc.memos && u in s.w.server
  {
    var m := s.w.server[u].memo;
    var w := s.w.(loc := s.w.loc.(sidecars := s.w.loc.sidecars[doc.path := BodyOf(ws, m)]));
    s.(w := WithMemo(w, u, s.w.loc.memos[u].(conflict := Some(Hash(m.content)))),
       log := s.log.(conflicts := s.log.conflicts + [doc.path]))
  }

  /** Replaces the server's content by the file's. */
  function Updated(ws: Workspace, s: PushState, doc: LocalDoc, u: Uid): PushState
    requires u in s.w.server
  {
    var m := s.w.server[u].memo.(content := doc.content);
    s.(w := WithMemo(WithContent(s.w, u, m), u, Rebased(ws, m, doc.path)))
  }

  /** The content half of a push: conflict bookkeeping, the server re-check, the update. */
  function PushContent(ws: Workspace, s: PushState, doc: LocalDoc, u: Uid): PushState
    requires u in s.w.loc.memos
  {
    var prev := s.w.loc.memos[u];
    if prev.conflict.Some? then
      if doc.path in s.w.loc.sidecars then s.(log := s.log.(conflicts := s.log.conflicts + [doc.path]))
      else if u !in s.w.server then Aborted(s)
      else if Hash(s.w.server[u].memo.content) != prev.conflict.value then Reopened(ws, s, doc, u)
      else Updated(ws, s, doc, u)
    else if Hash(doc.content) == prev.hash then s
    else if u !in s.w.server then Aborted(s)
    else if Hash(s.w.server[u].memo.content) != prev.hash then Reopened(ws, s, doc, u)
    else Updated(ws, s, doc, u)
  }

  /** Relocates the server document to the file's path and takes the server's answer, content
      hash included, as the new baseline. */
  function MoveDoc(ws: Workspace, s: PushState, doc: LocalDoc, u: Uid): PushState {
    var (folder, title) := ws.derive(doc.path);
    if u !in s.w.server || PathTaken(s.w.server, folder, title, Some(u)) then Aborted(s)
    else
      var m := s.w.server[u].memo.(folder := folder, title := title);
      var w := WithContent(s.w, u, m);
      if ws.PathOf(m) != doc.path then Aborted(s.(w := w))
      else s.(w := WithMemo(w, u, Rebased(ws, m, doc.path)))
  }

  /** A tracked file: relocated first when it moved, then compared and pushed unless it is a PDF. */
  function PushTracked(ws: Workspace, s: PushState, live: set<Uid>, doc: LocalDoc, u: Uid): PushState {
    if u !in live then s.(log := s.log.(orphaned := s.log.orphaned + [doc.path]))
    else if u !in s.w.loc.memos then s
    else
      var s1 := if s.w.loc.memos[u].path != doc.path then MoveDoc(ws, s, doc, u) else s;
      if !s1.ok || s1.w.loc.memos[u].docType.Pdf? || ws.extType(doc.path).Pdf? then s1
      else PushContent(ws, s1, doc, u)
  }

  function PushDoc(ws: Workspace, s: PushState, live: set<Uid>, doc: LocalDoc): (PushState, Option<Uid>) {
    if !s.ok then (s, doc.uid)
    else match doc.uid
      case None => PushNew(ws, s, doc)
      case Some(u) => (PushTracked(ws, s, live, doc, u), doc.uid)
  }

  /** The first pass: every file in turn, collecting the uid each one stands for. */
  function PushAll(ws: Workspace, s: PushState, live: set<Uid>, docs: seq<LocalDoc>, claimed: set<Uid>)
    : (PushState, set<Uid>)
    decreases |docs|
  {
    if docs == [] then (s, claimed)
    else
      var (s1, uid) := PushDoc(ws, s, live, docs[0]);
      PushAll(ws, s1, live, docs[1..], claimed + Claim(uid))
  }

  function Claim(uid: Option<Uid>): set<Uid> {
    if uid.Some? then {uid.value} else {}
  }

  /** A tracked document nobody claims: archived if it is still live, and no longer tracked. */
  function ArchiveOne(s: PushState, live: set<Uid>, claimed: set<Uid>, u: Uid): PushState {
    if !s.ok || u in claimed then s
    else
      var w := s.w.(loc := s.w.loc.(memos := Without(s.w.loc.memos, u)));
      if u !in live then s.(w := w)
      else if u !in s.w.server then Aborted(s)
      else s.(w := w.(server := w.server[u := w.server[u].(live := false)]),
              log := s.log.(archived := s.log.archived + [u]))
  }

  function ArchiveAll(s: PushState, live: set<Uid>, claimed: set<Uid>, uids: seq<Uid>): PushState
    decreases |uids|
  {
    if uids == [] then s else ArchiveAll(ArchiveOne(s, live, claimed, uids[0]), live, claimed, uids[1..])
  }

  /** A whole push of resolved files. A push that fails keeps its effects on the server and on
      the files, but its baseline is never saved. */
  function Push(ws: Workspace, w: World, log: PushLog, docs: seq<LocalDoc>): PushState {
    var live := LiveSet(w);
    var (s1, claimed) := PushAll(ws, PushState(w, log, true), live, docs, {});
    var s2 := ArchiveAll(s1, live, claimed, Sorted(s1.w.loc.memos.Keys));
    if s2.ok then s2 else s2.(w := s2.w.(loc := s2.w.loc.(memos := w.loc.memos)))
  }
}
