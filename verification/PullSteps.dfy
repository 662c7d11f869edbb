/** The per-document decisions of `memogit pull`, as functions from one local state to the next. */
module PullSteps {
  import opened Options
  import opened Checkout

  /** What a pull leaves for the user to look at. */
  datatype PullLog = PullLog(conflicts: seq<Uid>, missing: seq<Uid>, orphaned: seq<Path>)

  datatype PullState = PullState(loc: Local, log: PullLog)

  /** A server listing: documents with their uids. */
  type Listing = seq<(Uid, Memo)>

  function Adopted(ws: Workspace, loc: Local, uid: Uid, m: Memo): Local {
    loc.(files := loc.files[ws.PathOf(m) := FileOf(ws, uid, m)],
         memos := loc.memos[uid := Baseline(ws, m)])
  }

  /** The file is rewritten at its new place; a settled document also loses its sidecars. */
  function Relocated(ws: Workspace, loc: Local, uid: Uid, m: Memo, dropSidecars: bool): Local
    requires uid in loc.memos
  {
    var from := loc.memos[uid].path;
    Local(RelocateAndWrite(loc.files, from, ws.PathOf(m), FileOf(ws, uid, m)),
          if dropSidecars then Without(Without(loc.sidecars, from), ws.PathOf(m)) else loc.sidecars,
          loc.memos[uid := Baseline(ws, m)])
  }

  /** Both sides changed: the server text goes to the sidecar, the file stays. */
  function Conflicted(ws: Workspace, loc: Local, uid: Uid, m: Memo): Local
    requires uid in loc.memos
  {
    var prev := loc.memos[uid];
    loc.(sidecars := loc.sidecars[prev.path := BodyOf(ws, m)],
         memos := loc.memos[uid := prev.(conflict := Some(Hash(m.content)))])
  }

  predicate InSync(ws: Workspace, prev: MemoState, m: Memo) {
    Hash(m.content) == prev.hash && ws.PathOf(m) == prev.path
  }

  predicate AnyPdf(prev: MemoState, m: Memo) { prev.docType.Pdf? || m.docType.Pdf? }

  /** One document of the incremental listing. */
  function PullMemo(ws: Workspace, s: PullState, uid: Uid, m: Memo): PullState {
    var loc := s.loc;
    if uid !in loc.memos then s.(loc := Adopted(ws, loc, uid, m))
    else
      var prev := loc.memos[uid];
      if InSync(ws, prev, m) then s
      else if AnyPdf(prev, m) then s.(loc := Relocated(ws, loc, uid, m, false))
      else if prev.path !in loc.files then s.(log := s.log.(missing := s.log.missing + [uid]))
      else if LocalHash(loc.files[prev.path]) != prev.hash then
        PullState(Conflicted(ws, loc, uid, m), s.log.(conflicts := s.log.conflicts + [uid]))
      else s.(loc := Relocated(ws, loc, uid, m, true))
  }

  /** A tracked document compared with the full listing. */
  function ReconcileDrifted(ws: Workspace, s: PullState, uid: Uid, m: Memo): PullState
    requires uid in s.loc.memos
  {
    var loc := s.loc;
    var prev := loc.memos[uid];
    if InSync(ws, prev, m) then s
    else if !AnyPdf(prev, m) && prev.path !in loc.files then s
    else if !AnyPdf(prev, m) && LocalHash(loc.files[prev.path]) != prev.hash then
      if Hash(m.content) != prev.hash then
        PullState(Conflicted(ws, loc, uid, m), s.log.(conflicts := s.log.conflicts + [uid]))
      else s.(log := s.log.(orphaned := s.log.orphaned + [prev.path]))
    else s.(loc := Relocated(ws, loc, uid, m, true))
  }

  /** A tracked document the server no longer lists: dropped, unless it holds unpushed edits. */
  function DropGone(s: PullState, uid: Uid): PullState
    requires uid in s.loc.memos
  {
    var loc := s.loc;
    var prev := loc.memos[uid];
    if prev.path in loc.files && !prev.docType.Pdf? && LocalHash(loc.files[prev.path]) != prev.hash then
      s.(log := s.log.(orphaned := s.log.orphaned + [prev.path]))
    else s.(loc := loc.(files := Without(loc.files, prev.path), memos := Without(loc.memos, uid)))
  }

  function ReconcileOne(ws: Workspace, s: PullState, alive: map<Uid, Memo>, uid: Uid): PullState {
    if uid !in s.loc.memos then s
    else if uid in alive then ReconcileDrifted(ws, s, uid, alive[uid])
    else DropGone(s, uid)
  }

  /** Anything the server lists and the baseline does not know is exported. */
  function AdoptOne(ws: Workspace, s: PullState, uid: Uid, m: Memo): PullState {
    if uid in s.loc.memos then s else s.(loc := Adopted(ws, s.loc, uid, m))
  }

  /** Re-stamps a tracked file whose marker is missing or wrong. */
  function StampOne(ws: Workspace, s: PullState, uid: Uid): PullState {
    var loc := s.loc;
    if uid !in loc.memos || loc.memos[uid].path !in loc.files then s
    else
      var ms := loc.memos[uid];
      s.(loc := loc.(files := loc.files[ms.path := Restamped(ws, uid, ms.docType, loc.files[ms.path])]))
  }

  function PullRecent(ws: Workspace, s: PullState, recent: Listing): PullState
    decreases |recent|
  {
    if recent == [] then s
    else PullRecent(ws, PullMemo(ws, s, recent[0].0, recent[0].1), recent[1..])
  }

  function ReconcileAll(ws: Workspace, s: PullState, alive: map<Uid, Memo>, uids: seq<Uid>): PullState
    decreases |uids|
  {
    if uids == [] then s else ReconcileAll(ws, ReconcileOne(ws, s, alive, uids[0]), alive, uids[1..])
  }

  function AdoptAll(ws: Workspace, s: PullState, current: Listing): PullState
    decreases |current|
  {
    if current == [] then s else AdoptAll(ws, AdoptOne(ws, s, current[0].0, current[0].1), current[1..])
  }

  function StampAll(ws: Workspace, s: PullState, uids: seq<Uid>): PullState
    decreases |uids|
  {
    if uids == [] then s else StampAll(ws, StampOne(ws, s, uids[0]), uids[1..])
  }

  /** The last entry of each uid, as the source's map built from the listing. */
  function Alive(current: Listing): (r: map<Uid, Memo>)
    ensures forall u :: u in r <==> exists i | 0 <= i < |current| :: current[i].0 == u
    ensures forall u | u in r :: (u, r[u]) in current
  {
    if current == [] then map[]
    else
      var r := Alive(current[..|current| - 1]);
      r[current[|current| - 1].0 := current[|current| - 1].1]
  }

  /** A whole pull: the incremental pass over `recent`, the reconcile and adoption passes over
      the full listing `current`, and the re-stamping pass. */
  function Pull(ws: Workspace, s: PullState, recent: Listing, current: Listing): PullState {
    var s1 := PullRecent(ws, s, recent);
    var s2 := ReconcileAll(ws, s1, Alive(current), Sorted(s1.loc.memos.Keys));
    var s3 := AdoptAll(ws, s2, current);
    StampAll(ws, s3, Sorted(s3.loc.memos.Keys))
  }
}
