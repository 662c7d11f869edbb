/** The commands themselves: a checkout whose baseline, files and sidecars are updated document
    by document, talking to a server. Each method does what the step functions say. */
module Memogit {
  import opened Lists
  import opened Options
  import opened Checkout
  import opened PullSteps
  import opened PushSteps
  import opened Identities

  /** The document server, one atomic call per method. A call the server refuses returns false. */
  class Server {
    var docs: map<Uid, Remote>
    var next: Uid

    method GetMemo(u: Uid) returns (m: Option<Memo>)
      ensures m == if u in docs then Some(docs[u].memo) else None
    {
      m := if u in docs then Some(docs[u].memo) else None;
    }

    method CreateMemo(m: Memo) returns (uid: Option<Uid>)
      modifies this
      ensures if PathTaken(old(docs), m.folder, m.title, None) then uid == None && unchanged(this)
              else uid == Some(old(next)) && docs == old(docs)[old(next) := Remote(m, true)] && next == old(next) + 1
    {
      if PathTaken(docs, m.folder, m.title, None) { return None; }
      uid := Some(next);
      docs := docs[next := Remote(m, true)];
      next := next + 1;
    }

    method MoveMemo(u: Uid, folder: string, title: string) returns (moved: Option<Memo>)
      modifies `docs
      ensures if u !in old(docs) || PathTaken(old(docs), folder, title, Some(u)) then moved == None && docs == old(docs)
              else var m := old(docs)[u].memo.(folder := folder, title := title);
                   moved == Some(m) && docs == old(docs)[u := old(docs)[u].(memo := m)]
    {
      if u !in docs || PathTaken(docs, folder, title, Some(u)) { return None; }
      var m := docs[u].memo.(folder := folder, title := title);
      docs := docs[u := docs[u].(memo := m)];
      moved := Some(m);
    }

    method UpdateMemoContent(u: Uid, content: string) returns (updated: Option<Memo>)
      modifies `docs
      ensures if u !in old(docs) then updated == None && docs == old(docs)
              else var m := old(docs)[u].memo.(content := content);
                   updated == Some(m) && docs == old(docs)[u := old(docs)[u].(memo := m)]
    {
      if u !in docs { return None; }
      var m := docs[u].memo.(content := content);
      docs := docs[u := docs[u].(memo := m)];
      updated := Some(m);
    }

    method ArchiveMemo(u: Uid) returns (ok: bool)
      modifies `docs
      ensures ok == (u in old(docs))
      ensures docs == if ok then old(docs)[u := old(docs)[u].(live := false)] else old(docs)
    {
      ok := u in docs;
      if ok { docs := docs[u := docs[u].(live := false)]; }
    }
  }

  class Client {
    const ws: Workspace
    const server: Server

    var memos: map<Uid, MemoState>
    var files: map<Path, File>
    var sidecars: map<Path, string>

    var pullLog: PullLog
    var pushLog: PushLog

    constructor (ws: Workspace, server: Server)
      ensures this.ws == ws && this.server == server
      ensures World() == PushSteps.World(server.docs, server.next, Local(map[], map[], map[]))
    {
      this.ws, this.server := ws, server;
      memos, files, sidecars := map[], map[], map[];
      pullLog := PullLog([], [], []);
      pushLog := PushLog([], [], [], []);
    }

    function Tree(): PullState
      reads this
    {
      PullState(Local(files, sidecars, memos), pullLog)
    }

    function World(): PushSteps.World
      reads this, server
    {
      PushSteps.World(server.docs, server.next, Local(files, sidecars, memos))
    }

    function Pushing(ok: bool): PushState
      reads this, server
    {
      PushState(World(), pushLog, ok)
    }

    method ExportMemo(uid: Uid, m: Memo)
      modifies this
      ensures Tree() == old(Tree()).(loc := Adopted(ws, old(Tree()).loc, uid, m)) && pushLog == old(pushLog)
    {
      files := files[ws.PathOf(m) := FileOf(ws, uid, m)];
      memos := memos[uid := Baseline(ws, m)];
    }

    method RelocateMemo(uid: Uid, m: Memo, dropSidecars: bool)
      requires uid in memos
      modifies this
      ensures Tree() == old(Tree()).(loc := Relocated(ws, old(Tree()).loc, uid, m, dropSidecars))
      ensures pushLog == old(pushLog)
    {
      var from, to := memos[uid].path, ws.PathOf(m);
      files := files[to := FileOf(ws, uid, m)];
      if from != to {
        files := Without(files, from);
      }
      if dropSidecars {
        sidecars := Without(sidecars, from);
        sidecars := Without(sidecars, to);
      }
      memos := memos[uid := Baseline(ws, m)];
    }

    method OpenConflict(uid: Uid, m: Memo)
      requires uid in memos
      modifies this
      ensures Tree() == PullState(Conflicted(ws, old(Tree()).loc, uid, m),
                                  old(pullLog).(conflicts := old(pullLog).conflicts + [uid]))
      ensures pushLog == old(pushLog)
    {
      var prev := memos[uid];
      sidecars := sidecars[prev.path := BodyOf(ws, m)];
      memos := memos[uid := prev.(conflict := Some(Hash(m.content)))];
      pullLog := pullLog.(conflicts := pullLog.conflicts + [uid]);
    }

    method PullIncremental(recent: Listing)
      modifies this
      ensures Tree() == PullRecent(ws, old(Tree()), recent) && pushLog == old(pushLog)
    {
      for i := 0 to |recent|
        invariant PullRecent(ws, Tree(), recent[i..]) == PullRecent(ws, old(Tree()), recent)
        invariant pushLog == old(pushLog)
      {
        label Turn:
        var (uid, m) := recent[i];
        if uid !in memos {
          ExportMemo(uid, m);
        } else {
          var prev := memos[uid];
          if Hash(m.content) == prev.hash && ws.PathOf(m) == prev.path {
            // An overlap re-fetch: nothing to do.
          } else if prev.docType.Pdf? || m.docType.Pdf? {
            RelocateMemo(uid, m, false);
          } else if prev.path !in files {
            pullLog := pullLog.(missing := pullLog.missing + [uid]);
          } else if LocalHash(files[prev.path]) != prev.hash {
            OpenConflict(uid, m);
          } else {
            RelocateMemo(uid, m, true);
          }
        }
        assert Tree() == PullMemo(ws, old@Turn(Tree()), uid, m);
        RestOfRest(recent, i);
      }
    }

    method ReconcileMemo(uid: Uid, m: Memo)
      requires uid in memos
      modifies this
      ensures Tree() == ReconcileDrifted(ws, old(Tree()), uid, m) && pushLog == old(pushLog)
    {
      var prev := memos[uid];
      var moved, changed := ws.PathOf(m) != prev.path, Hash(m.content) != prev.hash;
      if !moved && !changed { return; }
      if !prev.docType.Pdf? && !m.docType.Pdf? {
        if prev.path !in files { return; }
        if LocalHash(files[prev.path]) != prev.hash {
          if changed {
            OpenConflict(uid, m);
          } else {
            pullLog := pullLog.(orphaned := pullLog.orphaned + [prev.path]);
          }
          return;
        }
      }
      RelocateMemo(uid, m, true);
    }

    method ReconcileTracked(uid: Uid, alive: map<Uid, Memo>)
      modifies this
      ensures Tree() == ReconcileOne(ws, old(Tree()), alive, uid) && pushLog == old(pushLog)
    {
      if uid !in memos { return; }
      if uid in alive {
        ReconcileMemo(uid, alive[uid]);
        return;
      }
      var prev := memos[uid];
      if prev.path in files && !prev.docType.Pdf? && LocalHash(files[prev.path]) != prev.hash {
        pullLog := pullLog.(orphaned := pullLog.orphaned + [prev.path]);
        return;
      }
      files := Without(files, prev.path);
      memos := Without(memos, uid);
    }

    method ReconcileAgainst(current: Listing)
      modifies this
      ensures Tree() == AdoptAll(ws, ReconcileAll(ws, old(Tree()), Alive(current), Sorted(old(memos).Keys)), current)
      ensures pushLog == old(pushLog)
    {
      var alive := Alive(current);
      var uids := Sorted(memos.Keys);
      ghost var goal := ReconcileAll(ws, Tree(), alive, uids);
      for i := 0 to |uids|
        invariant ReconcileAll(ws, Tree(), alive, uids[i..]) == goal
        invariant pushLog == old(pushLog)
      {
        RestOfRest(uids, i);
        ReconcileTracked(uids[i], alive);
      }
      AdoptUntracked(current);
    }

    method AdoptUntracked(current: Listing)
      modifies this
      ensures Tree() == AdoptAll(ws, old(Tree()), current) && pushLog == old(pushLog)
    {
      for i := 0 to |current|
        invariant AdoptAll(ws, Tree(), current[i..]) == AdoptAll(ws, old(Tree()), current)
        invariant pushLog == old(pushLog)
      {
        RestOfRest(current, i);
        var (uid, m) := current[i];
        if uid !in memos {
          ExportMemo(uid, m);
        }
      }
    }

    method EnsureLocalID(uid: Uid)
      requires uid in memos
      modifies this
      ensures Tree() == StampOne(ws, old(Tree()), uid) && memos == old(memos) && pushLog == old(pushLog)
    {
      var ms := memos[uid];
      if ms.path in files && files[ms.path].marker != Some(uid) {
        files := files[ms.path := Stamped(ws, uid, ms.docType, files[ms.path].body)];
      }
    }

    method EnsureLocalIDs()
      modifies this
      ensures Tree() == StampAll(ws, old(Tree()), Sorted(old(memos).Keys)) && pushLog == old(pushLog)
    {
      var uids := Sorted(memos.Keys);
      ghost var goal := StampAll(ws, Tree(), uids);
      for i := 0 to |uids|
        invariant StampAll(ws, Tree(), uids[i..]) == goal
        invariant memos == old(memos) && pushLog == old(pushLog)
      {
        RestOfRest(uids, i);
        EnsureLocalID(uids[i]);
      }
    }

    /** `memogit pull`, over the incremental and the full listing the server answered with. */
    method Pull(recent: Listing, current: Listing)
      modifies this
      ensures Tree() == PullSteps.Pull(ws, old(Tree()), recent, current) && pushLog == old(pushLog)
    {
      PullIncremental(recent);
      ReconcileAgainst(current);
      EnsureLocalIDs();
    }

    /** A file that belongs to no known document. Returns the uid the server assigned, and whether
        the run may go on. */
    method PushNewDoc(doc: LocalDoc) returns (uid: Option<Uid>, ok: bool)
      requires doc.uid == None
      modifies this, server
      ensures var (r, u) := PushNew(ws, old(Pushing(true)), doc); Pushing(ok) == r && uid == u
      ensures pullLog == old(pullLog)
    {
      var docType := ws.extType(doc.path);
      if docType.Pdf? { return None, true; }
      var (folder, title) := ws.derive(doc.path);
      uid := server.CreateMemo(Memo(folder, title, docType, doc.content));
      if uid == None { return None, false; }
      memos := memos[uid.value := Rebased(ws, Memo(folder, title, docType, doc.content), doc.path)];
      files := files[doc.path := Stamped(ws, uid.value, docType, ws.strip(doc.content))];
      pushLog := pushLog.(created := pushLog.created + [uid.value]);
      ok := true;
    }

    method MoveDocument(doc: LocalDoc, uid: Uid) returns (ok: bool)
      modifies this, server`docs
      ensures Pushing(ok) == MoveDoc(ws, old(Pushing(true)), doc, uid) && pullLog == old(pullLog)
    {
      var (folder, title) := ws.derive(doc.path);
      var moved := server.MoveMemo(uid, folder, title);
      if moved == None || ws.PathOf(moved.value) != doc.path { return false; }
      memos := memos[uid := Rebased(ws, moved.value, doc.path)];
      ok := true;
    }

    /** Writes the server's text to the sidecar and records the conflict. */
    method ReopenConflict(doc: LocalDoc, uid: Uid, m: Memo)
      requires uid in memos && uid in server.docs && server.docs[uid].memo == m
      modifies this
      ensures Pushing(true) == Reopened(ws, old(Pushing(true)), doc, uid) && pullLog == old(pullLog)
    {
      sidecars := sidecars[doc.path := BodyOf(ws, m)];
      memos := memos[uid := memos[uid].(conflict := Some(Hash(m.content)))];
      pushLog := pushLog.(conflicts := pushLog.conflicts + [doc.path]);
    }

    method PushUpdate(doc: LocalDoc, uid: Uid)
      requires uid in server.docs
      modifies this, server`docs
      ensures Pushing(true) == Updated(ws, old(Pushing(true)), doc, uid) && pullLog == old(pullLog)
    {
      var updated := server.UpdateMemoContent(uid, doc.content);
      memos := memos[uid := Rebased(ws, updated.value, doc.path)];
    }

    method PushDocContent(doc: LocalDoc, uid: Uid) returns (ok: bool)
      requires uid in memos
      modifies this, server`docs
      ensures Pushing(ok) == PushContent(ws, old(Pushing(true)), doc, uid) && pullLog == old(pullLog)
    {
      var prev := memos[uid];
      if prev.conflict.Some? {
        if doc.path in sidecars {
          pushLog := pushLog.(conflicts := pushLog.conflicts + [doc.path]);
          return true;
        }
      } else if Hash(doc.content) == prev.hash {
        return true;
      }
      var memo := server.GetMemo(uid);
      if memo == None { return false; }
      var expected := if prev.conflict.Some? then prev.conflict.value else prev.hash;
      if Hash(memo.value.content) != expected {
        ReopenConflict(doc, uid, memo.value);
      } else {
        PushUpdate(doc, uid);
      }
      ok := true;
    }

    method PushTrackedDoc(live: set<Uid>, doc: LocalDoc, uid: Uid) returns (ok: bool)
      modifies this, server`docs
      ensures Pushing(ok) == PushTracked(ws, old(Pushing(true)), live, doc, uid) && pullLog == old(pullLog)
    {
      ok := true;
      if uid !in live {
        pushLog := pushLog.(orphaned := pushLog.orphaned + [doc.path]);
        return;
      }
      if uid !in memos { return; }
      if memos[uid].path != doc.path {
        ok := MoveDocument(doc, uid);
        if !ok { return; }
      }
      if memos[uid].docType.Pdf? || ws.extType(doc.path).Pdf? { return; }
      ok := PushDocContent(doc, uid);
    }

    /** The first pass of a push; every file's uid is filled in on the way. */
    method PushDocs(live: set<Uid>, docs: array<LocalDoc>) returns (ok: bool)
      modifies this, server, docs
      ensures PushAll(ws, old(Pushing(true)), live, old(docs[..]), {}) == (Pushing(ok), ClaimedUids(docs[..]))
      ensures pullLog == old(pullLog)
    {
      ghost var ds := docs[..];
      ghost var goal := PushAll(ws, Pushing(true), live, ds, {});
      ok := true;
      assert ds[0..] == ds && ClaimedUids(docs[..0]) == {};
      for i := 0 to docs.Length
        invariant forall j | i <= j < docs.Length :: docs[j] == ds[j]
        invariant PushAll(ws, Pushing(ok), live, ds[i..], ClaimedUids(docs[..i])) == goal
        invariant pullLog == old(pullLog)
      {
        assert ds[i..][1..] == ds[i + 1..] && ds[i..][0] == ds[i];
        ghost var before := docs[..i];
        var doc := docs[i];
        if ok {
          if doc.uid == None {
            var uid;
            uid, ok := PushNewDoc(doc);
            docs[i] := doc.(uid := uid);
          } else {
            ok := PushTrackedDoc(live, doc, doc.uid.value);
          }
        }
        assert docs[..i + 1] == before + [docs[i]];
        ClaimedOneMore(before, docs[i]);
      }
      assert docs[..docs.Length] == docs[..];
    }

    method ArchiveUnclaimed(live: set<Uid>, claimed: set<Uid>, uid: Uid) returns (ok: bool)
      modifies this, server`docs
      ensures Pushing(ok) == ArchiveOne(old(Pushing(true)), live, claimed, uid) && pullLog == old(pullLog)
    {
      ok := true;
      if uid in claimed { return; }
      if uid in live {
        ok := server.ArchiveMemo(uid);
        if !ok { return; }
        pushLog := pushLog.(archived := pushLog.archived + [uid]);
      }
      memos := Without(memos, uid);
    }

    /** The second pass: tracked documents no file stands for. A failed command skips it. */
    method ArchivePass(live: set<Uid>, claimed: set<Uid>, pushed: bool) returns (ok: bool)
      modifies this, server`docs
      ensures Pushing(ok) == ArchiveAll(old(Pushing(pushed)), live, claimed, Sorted(old(memos).Keys))
      ensures pullLog == old(pullLog)
    {
      ok := pushed;
      var uids := Sorted(memos.Keys);
      ghost var goal := ArchiveAll(Pushing(ok), live, claimed, uids);
      for i := 0 to |uids|
        invariant ArchiveAll(Pushing(ok), live, claimed, uids[i..]) == goal
        invariant pullLog == old(pullLog)
      {
        RestOfRest(uids, i);
        if ok {
          ok := ArchiveUnclaimed(live, claimed, uids[i]);
        }
      }
    }

    /** `memogit push` of the files found in the work tree. */
    method Push(docs: array<LocalDoc>) returns (ok: bool, ghost idx: map<Path, Uid>, ghost resolved: seq<LocalDoc>)
      requires DistinctPaths(docs[..]) && forall i | 0 <= i < docs.Length :: docs[i].uid == None
      modifies this, server, docs
      ensures IsPathIndex(idx, old(memos)) && Resolved(old(docs[..]), resolved, old(memos), idx)
      ensures Pushing(ok) == PushSteps.Push(ws, old(World()), old(pushLog), resolved) && pullLog == old(pullLog)
    {
      var saved := memos;
      var index := PathIndex(memos);
      ResolveIdentities(docs, memos, index);
      idx, resolved := index, docs[..];
      var live := set u | u in server.docs && server.docs[u].live;
      assert live == LiveSet(World());
      ok := PushDocs(live, docs);
      ok := ArchivePass(live, ClaimedUids(docs[..]), ok);
      if !ok {
        memos := saved;
      }
    }
  }

  function ClaimedUids(docs: seq<LocalDoc>): set<Uid> {
    set d | d in docs && d.uid.Some? :: d.uid.value
  }

  lemma ClaimedOneMore(docs: seq<LocalDoc>, d: LocalDoc)
    ensures ClaimedUids(docs + [d]) == ClaimedUids(docs) + Claim(d.uid)
  {
  }
}
