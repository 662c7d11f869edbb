/** Whole pulls and pushes are runs of the steps in SyncRuns, so what holds over every run holds
    over every sequence of commands. */
module SyncCommands {
  import opened Options
  import opened Checkout
  import opened PullSteps
  import opened PushSteps
  import opened PullConvergence
  import opened PushArchive
  import opened PushRenamed
  import opened PullReplaced
  import opened Identities
  import opened SyncRuns

  function Pulling(recent: Listing): seq<Action> {
    seq(|recent|, i requires 0 <= i < |recent| => PullStep(recent[i].0, recent[i].1))
  }

  function Reconciling(alive: map<Uid, Memo>, uids: seq<Uid>): seq<Action> {
    seq(|uids|, i requires 0 <= i < |uids| => ReconcileStep(uids[i], alive))
  }

  function Adopting(current: Listing): seq<Action> {
    seq(|current|, i requires 0 <= i < |current| => AdoptStep(current[i].0, current[i].1))
  }

  function Stamping(uids: seq<Uid>): seq<Action> {
    seq(|uids|, i requires 0 <= i < |uids| => StampStep(uids[i]))
  }

  function Archiving(live: set<Uid>, claimed: set<Uid>, uids: seq<Uid>): seq<Action> {
    seq(|uids|, i requires 0 <= i < |uids| => ArchiveStep(live, claimed, uids[i]))
  }

  /** The files a push gets to before it stops. */
  function Pushing(ws: Workspace, s: PushState, live: set<Uid>, docs: seq<LocalDoc>): seq<Action>
    decreases |docs|
  {
    if docs == [] || !s.ok then []
    else [PushStep(live, docs[0])] + Pushing(ws, PushDoc(ws, s, live, docs[0]).0, live, docs[1..])
  }

  function PullCommand(ws: Workspace, s: PullState, recent: Listing, current: Listing): seq<Action> {
    var s1 := PullRecent(ws, s, recent);
    var s2 := ReconcileAll(ws, s1, Alive(current), Sorted(s1.loc.memos.Keys));
    var s3 := AdoptAll(ws, s2, current);
    Pulling(recent) + Reconciling(Alive(current), Sorted(s1.loc.memos.Keys)) +
    Adopting(current) + Stamping(Sorted(s3.loc.memos.Keys)) + [Save]
  }

  function PushCommand(ws: Workspace, w: World, log: PushLog, docs: seq<LocalDoc>): seq<Action> {
    var live := LiveSet(w);
    var s := PushState(w, log, true);
    var (s1, claimed) := PushAll(ws, s, live, docs, {});
    Pushing(ws, s, live, docs) +
    if s1.ok then Archiving(live, claimed, Sorted(s1.w.loc.memos.Keys)) + [Save] else [Load]
  }

  /** The trail stands where the command does, and its saved baseline is untouched. */
  predicate At(t: Trail, loc: Local, t0: Trail) {
    t.w == t0.w.(loc := loc) && t.saved == t0.saved
  }

  lemma PullingRuns(ws: Workspace, u: Uid, t: Trail, s: PullState, recent: Listing)
    requires t.w.loc == s.loc
    ensures At(Run(ws, u, t, Pulling(recent)), PullRecent(ws, s, recent).loc, t)
    decreases |recent|
  {
    if recent != [] {
      assert Pulling(recent)[1..] == Pulling(recent[1..]);
      PullingRuns(ws, u, Step(ws, u, t, Pulling(recent)[0]), PullMemo(ws, s, recent[0].0, recent[0].1), recent[1..]);
    }
  }

  lemma ReconcilingRuns(ws: Workspace, u: Uid, t: Trail, s: PullState, alive: map<Uid, Memo>, uids: seq<Uid>)
    requires t.w.loc == s.loc
    ensures At(Run(ws, u, t, Reconciling(alive, uids)), ReconcileAll(ws, s, alive, uids).loc, t)
    decreases |uids|
  {
    if uids != [] {
      assert Reconciling(alive, uids)[1..] == Reconciling(alive, uids[1..]);
      var next := Step(ws, u, t, Reconciling(alive, uids)[0]);
      ReconcilingRuns(ws, u, next, ReconcileOne(ws, s, alive, uids[0]), alive, uids[1..]);
    }
  }

  lemma AdoptingRuns(ws: Workspace, u: Uid, t: Trail, s: PullState, current: Listing)
    requires t.w.loc == s.loc
    ensures At(Run(ws, u, t, Adopting(current)), AdoptAll(ws, s, current).loc, t)
    decreases |current|
  {
    if current != [] {
      assert Adopting(current)[1..] == Adopting(current[1..]);
      var next := Step(ws, u, t, Adopting(current)[0]);
      AdoptingRuns(ws, u, next, AdoptOne(ws, s, current[0].0, current[0].1), current[1..]);
    }
  }

  lemma StampingRuns(ws: Workspace, u: Uid, t: Trail, s: PullState, uids: seq<Uid>)
    requires t.w.loc == s.loc
    ensures At(Run(ws, u, t, Stamping(uids)), StampAll(ws, s, uids).loc, t)
    decreases |uids|
  {
    if uids != [] {
      assert Stamping(uids)[1..] == Stamping(uids[1..]);
      StampingRuns(ws, u, Step(ws, u, t, Stamping(uids)[0]), StampOne(ws, s, uids[0]), uids[1..]);
    }
  }

  /** Every pull is a run that ends by saving its baseline. */
  lemma PullIsARun(ws: Workspace, u: Uid, t: Trail, s: PullState, recent: Listing, current: Listing)
    requires t.w.loc == s.loc
    ensures var r := Run(ws, u, t, PullCommand(ws, s, recent, current));
            var loc := Pull(ws, s, recent, current).loc;
            r.w == t.w.(loc := loc) && r.saved == loc.memos
  {
    var alive := Alive(current);
    var s1 := PullRecent(ws, s, recent);
    var uids := Sorted(s1.loc.memos.Keys);
    var s2 := ReconcileAll(ws, s1, alive, uids);
    var s3 := AdoptAll(ws, s2, current);
    var stamped := Sorted(s3.loc.memos.Keys);
    var a, b, c, d := Pulling(recent), Reconciling(alive, uids), Adopting(current), Stamping(stamped);
    RunConcat(ws, u, t, a, b);
    RunConcat(ws, u, t, a + b, c);
    RunConcat(ws, u, t, a + b + c, d);
    RunConcat(ws, u, t, a + b + c + d, [Save]);
    var t1 := Run(ws, u, t, a);
    PullingRuns(ws, u, t, s, recent);
    var t2 := Run(ws, u, t1, b);
    ReconcilingRuns(ws, u, t1, s1, alive, uids);
    var t3 := Run(ws, u, t2, c);
    AdoptingRuns(ws, u, t2, s2, current);
    StampingRuns(ws, u, t3, s3, stamped);
  }

  lemma PushingRuns(ws: Workspace, u: Uid, t: Trail, s: PushState, live: set<Uid>, docs: seq<LocalDoc>,
                    claimed: set<Uid>)
    requires t.w == s.w
    ensures var r := Run(ws, u, t, Pushing(ws, s, live, docs));
            r.w == PushAll(ws, s, live, docs, claimed).0.w && r.saved == t.saved
    decreases |docs|
  {
    if docs != [] {
      var (s1, uid) := PushDoc(ws, s, live, docs[0]);
      if s.ok {
        var tail := Pushing(ws, s1, live, docs[1..]);
        assert Pushing(ws, s, live, docs)[1..] == tail;
        var t1 := Step(ws, u, t, PushStep(live, docs[0]));
        SameWorldWithoutLog(ws, s, live, docs[0]);
        PushingRuns(ws, u, t1, s1, live, docs[1..], claimed + Claim(uid));
      } else {
        FailedPush(ws, s, live, docs, claimed);
      }
    }
  }

  /** The log does not influence what a push does to the world. */
  lemma SameWorldWithoutLog(ws: Workspace, s: PushState, live: set<Uid>, doc: LocalDoc)
    requires s.ok
    ensures PushDoc(ws, s, live, doc).0.w == PushDoc(ws, OnWorld(s.w), live, doc).0.w
  {
  }

  lemma FailedPush(ws: Workspace, s: PushState, live: set<Uid>, docs: seq<LocalDoc>, claimed: set<Uid>)
    requires !s.ok
    ensures PushAll(ws, s, live, docs, claimed).0 == s
    decreases |docs|
  {
    if docs != [] {
      FailedPush(ws, s, live, docs[1..], claimed + Claim(docs[0].uid));
    }
  }

  lemma ArchivingRuns(ws: Workspace, u: Uid, t: Trail, s: PushState, live: set<Uid>, claimed: set<Uid>, uids: seq<Uid>)
    requires t.w == s.w && s.ok && live <= s.w.server.Keys
    ensures var r := Run(ws, u, t, Archiving(live, claimed, uids));
            var all := ArchiveAll(s, live, claimed, uids);
            r.w == all.w && all.ok && r.saved == t.saved
    decreases |uids|
  {
    if uids != [] {
      assert Archiving(live, claimed, uids)[1..] == Archiving(live, claimed, uids[1..]);
      ArchivingRuns(ws, u, Step(ws, u, t, Archiving(live, claimed, uids)[0]),
                    ArchiveOne(s, live, claimed, uids[0]), live, claimed, uids[1..]);
    }
  }

  /** Every push started from the saved baseline is a run; it saves its own baseline when it
      succeeds and falls back to the old one when it fails. */
  lemma PushIsARun(ws: Workspace, u: Uid, t: Trail, log: PushLog, docs: seq<LocalDoc>)
    requires Numbered(t.w) && t.saved == t.w.loc.memos
    ensures var r := Run(ws, u, t, PushCommand(ws, t.w, log, docs));
            var all := Push(ws, t.w, log, docs);
            r.w == all.w && r.saved == all.w.loc.memos
  {
    var live := LiveSet(t.w);
    var s := PushState(t.w, log, true);
    var (s1, claimed) := PushAll(ws, s, live, docs, {});
    var a := Pushing(ws, s, live, docs);
    PushingRuns(ws, u, t, s, live, docs, {});
    AllGrows(ws, s, live, docs, {});
    var t1 := Run(ws, u, t, a);
    if s1.ok {
      var uids := Sorted(s1.w.loc.memos.Keys);
      var b := Archiving(live, claimed, uids);
      RunConcat(ws, u, t1, b, [Save]);
      RunConcat(ws, u, t, a, b + [Save]);
      assert live <= s1.w.server.Keys;
      ArchivingRuns(ws, u, t1, s1, live, claimed, uids);
    } else {
      RunConcat(ws, u, t, a, [Load]);
      FailedArchive(s1, live, claimed, Sorted(s1.w.loc.memos.Keys));
    }
  }

  /** A file stands for a document only by its marker or at its recorded path. */
  lemma NobodyStandsFor(memos: map<Uid, MemoState>, files: map<Path, File>, loaded: seq<LocalDoc>, docs: seq<LocalDoc>,
                        idx: map<Path, Uid>, v: Uid)
    requires Loads(loaded, files) && IsPathIndex(idx, memos) && Resolved(loaded, docs, memos, idx)
    requires v in memos && memos[v].path !in files && forall p | p in files :: files[p].marker != Some(v)
    ensures !StoodFor(docs, v)
  {
    forall d | d in docs ensures d.uid != Some(v) {
      var i :| 0 <= i < |docs| && docs[i] == d;
      assert loaded[i] in loaded;
    }
  }

  /** The replaced-document trap end to end: after the pull that leaves the new document `v` without a
      file, a push of the tree as that pull left it archives `v`, live as it is, if it succeeds. */
  lemma PullThenPushArchivesLiveDocument(ws: Workspace, w: World, pullLog: PullLog, recent: Listing, current: Listing,
                                         log: PushLog, loaded: seq<LocalDoc>, docs: seq<LocalDoc>, idx: map<Path, Uid>,
                                         u: Uid, v: Uid)
    requires var cur := Alive(current);
             && Supplants(ws, w.loc, cur, u, v) && Clean(ws, w.loc, cur) && Shows(cur, recent) && Shows(cur, current)
             && IsListed(recent, v) && PassesFor(ws, w.loc.memos[u], v, cur[v])
    requires var pulled := Pull(ws, PullState(w.loc, pullLog), recent, current).loc;
             && Numbered(w.(loc := pulled)) && Live(w, v)
             && Loads(loaded, pulled.files) && IsPathIndex(idx, pulled.memos)
             && Resolved(loaded, docs, pulled.memos, idx)
             && forall p | p in pulled.files :: pulled.files[p].marker != Some(v)
    ensures var w1 := w.(loc := Pull(ws, PullState(w.loc, pullLog), recent, current).loc);
            Live(w1, v) && (Push(ws, w1, log, docs).ok ==> !Live(Push(ws, w1, log, docs).w, v))
  {
    ReplacedDocument(ws, PullState(w.loc, pullLog), recent, current, u, v);
    var w1 := w.(loc := Pull(ws, PullState(w.loc, pullLog), recent, current).loc);
    NobodyStandsFor(w1.loc.memos, w1.loc.files, loaded, docs, idx, v);
    PushArchivesExactly(ws, w1, log, docs);
  }

  /** In the smallest case no file is left at all, and the push archives the live document 1. */
  lemma SmallestTrap(ws: Workspace, m: Memo, pullLog: PullLog, log: PushLog)
    requires !m.docType.Pdf? && Readable(ws, m)
    ensures var loc := Local(map[ws.PathOf(m) := FileOf(ws, 0, m)], map[], map[0 := Baseline(ws, m)]);
            var pulled := Pull(ws, PullState(loc, pullLog), [(1, m)], [(1, m)]).loc;
            var w := World(map[1 := Remote(m, true)], 2, pulled);
            pulled.files == map[] && Live(w, 1) && !Live(Push(ws, w, log, []).w, 1)
  {
    ReplacedDocumentLosesItsFile(ws, m, pullLog);
    var loc := Local(map[ws.PathOf(m) := FileOf(ws, 0, m)], map[], map[0 := Baseline(ws, m)]);
    var pulled := Pull(ws, PullState(loc, pullLog), [(1, m)], [(1, m)]).loc;
    EmptyTreeArchivesAll(ws, World(map[1 := Remote(m, true)], 2, pulled), log);
  }
}
