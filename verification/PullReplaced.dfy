/** A document deleted on the server and another created in its place: the one collision of paths
    that a server whose paths are unique can bring about. */
module PullReplaced {
  import opened Checkout
  import opened PullConvergence
  import opened PullSafety
  import opened PullSteps

  /** `u` is tracked and gone, `v` is live and not tracked, and `v` is headed for the path where `u`
      is recorded; nothing else competes for a path. */
  predicate Supplants(ws: Workspace, loc: Local, cur: map<Uid, Memo>, u: Uid, v: Uid) {
    && u in loc.memos && u !in cur && v in cur && v !in loc.memos
    && loc.memos[u].path == ws.PathOf(cur[v])
    && NoCollision(ws, loc, Without(cur, v))
    && forall w | w in cur && w != v :: ws.PathOf(cur[w]) != ws.PathOf(cur[v])
  }

  /** The export of `v` passes for an unedited file of `u`. */
  predicate PassesFor(ws: Workspace, prev: MemoState, v: Uid, m: Memo) {
    prev.docType.Pdf? || LocalHash(FileOf(ws, v, m)) == prev.hash
  }

  // The new document is not in the incremental listing: the old one goes before it comes.

  lemma SameReconcile(ws: Workspace, s: PullState, cur: map<Uid, Memo>, uids: seq<Uid>, v: Uid)
    requires v !in uids
    ensures ReconcileAll(ws, s, cur, uids) == ReconcileAll(ws, s, Without(cur, v), uids)
    decreases |uids|
  {
    if uids != [] {
      assert ReconcileOne(ws, s, cur, uids[0]) == ReconcileOne(ws, s, Without(cur, v), uids[0]);
      SameReconcile(ws, ReconcileOne(ws, s, cur, uids[0]), cur, uids[1..], v);
    }
  }

  /** The first half of the pull goes as if there were no new document. */
  lemma UnlistedIsUnseen(ws: Workspace, s: PullState, recent: Listing, cur: map<Uid, Memo>, v: Uid)
    requires NoCollision(ws, s.loc, Without(cur, v)) && v !in s.loc.memos
    requires Shows(cur, recent) && !IsListed(recent, v)
    ensures Shows(Without(cur, v), recent)
    ensures FirstHalf(ws, s, recent, cur) == FirstHalf(ws, s, recent, Without(cur, v))
  {
    var s1 := PullRecent(ws, s, recent);
    assert Shows(Without(cur, v), recent);
    RecentPass(ws, s, Without(cur, v), recent, v);
    SameReconcile(ws, s1, cur, Sorted(s1.loc.memos.Keys), v);
  }

  lemma UnlistedOne(ws: Workspace, s: PullState, recent: Listing, cur: map<Uid, Memo>, v: Uid, w: Uid)
    requires NoCollision(ws, s.loc, Without(cur, v)) && v !in s.loc.memos && Clean(ws, s.loc, cur)
    requires Shows(Without(cur, v), recent)
    ensures var r := FirstHalf(ws, s, recent, Without(cur, v));
            && NoCollision(ws, r.loc, Without(cur, v))
            && (w in r.loc.memos ==> w in Without(cur, v) && Placed(ws, r.loc, w, cur[w]))
  {
    FirstHalfOne(ws, s, Without(cur, v), recent, w);
    assert w in cur ==> Open(ws, s.loc, w, cur[w]);
  }

  /** Where every tracked document is at its place, one more live document brings no collision. */
  lemma OneMore(ws: Workspace, loc: Local, cur: map<Uid, Memo>, v: Uid)
    requires v in cur && NoCollision(ws, loc, Without(cur, v))
    requires forall w | w in cur && w != v :: ws.PathOf(cur[w]) != ws.PathOf(cur[v])
    requires forall w | w in loc.memos :: w in Without(cur, v) && Placed(ws, loc, w, cur[w])
    ensures NoCollision(ws, loc, cur)
  {
    var rest := Without(cur, v);
    forall a, b | a in loc.memos && b in cur && a != b ensures loc.memos[a].path != ws.PathOf(cur[b]) {
      assert a in rest && Placed(ws, loc, a, cur[a]);
      assert b != v ==> b in rest && rest[b] == cur[b];
    }
    forall a, b | a in cur && b in cur && a != b ensures ws.PathOf(cur[a]) != ws.PathOf(cur[b]) {
      assert a != v && b != v ==> a in rest && b in rest;
    }
  }

  lemma UnlistedFirstHalf(ws: Workspace, s: PullState, recent: Listing, cur: map<Uid, Memo>, u: Uid, v: Uid)
    requires Supplants(ws, s.loc, cur, u, v) && Clean(ws, s.loc, cur)
    requires Shows(cur, recent) && !IsListed(recent, v)
    ensures var r := FirstHalf(ws, s, recent, cur);
            && NoCollision(ws, r.loc, cur)
            && (forall w | w in r.loc.memos :: w in Without(cur, v) && Placed(ws, r.loc, w, cur[w]))
            && (forall w | w in r.loc.memos :: w in cur)
  {
    UnlistedIsUnseen(ws, s, recent, cur, v);
    UnlistedOne(ws, s, recent, cur, v, v);
    var r := FirstHalf(ws, s, recent, cur);
    forall w | w in r.loc.memos ensures w in Without(cur, v) && Placed(ws, r.loc, w, cur[w]) {
      UnlistedOne(ws, s, recent, cur, v, w);
    }
    OneMore(ws, r.loc, cur, v);
  }

  lemma UnlistedConverges(ws: Workspace, s: PullState, recent: Listing, current: Listing, u: Uid, v: Uid)
    requires var cur := Alive(current);
             && Supplants(ws, s.loc, cur, u, v) && Clean(ws, s.loc, cur)
             && Shows(cur, recent) && Shows(cur, current) && !IsListed(recent, v)
    ensures Converged(ws, Pull(ws, s, recent, current).loc, Alive(current))
  {
    var cur, r := Alive(current), Pull(ws, s, recent, current);
    UnlistedFirstHalf(ws, s, recent, cur, u, v);
    UnlistedSecondHalf(ws, FirstHalf(ws, s, recent, cur), current);
    assert r == SecondHalf(ws, FirstHalf(ws, s, recent, cur), current);
  }

  lemma UnlistedSecondHalf(ws: Workspace, s: PullState, current: Listing)
    requires NoCollision(ws, s.loc, Alive(current)) && Shows(Alive(current), current)
    requires forall x | x in s.loc.memos :: x in Alive(current) && Placed(ws, s.loc, x, Alive(current)[x])
    ensures Converged(ws, SecondHalf(ws, s, current).loc, Alive(current))
  {
    var r, cur := SecondHalf(ws, s, current), Alive(current);
    forall w: Uid
      ensures w in r.loc.memos <==> w in cur
      ensures w in cur ==> Placed(ws, r.loc, w, cur[w])
    {
      UnlistedOneComes(ws, s, current, w);
    }
  }

  lemma UnlistedOneComes(ws: Workspace, s: PullState, current: Listing, w: Uid)
    requires NoCollision(ws, s.loc, Alive(current)) && Shows(Alive(current), current)
    requires forall x | x in s.loc.memos :: x in Alive(current) && Placed(ws, s.loc, x, Alive(current)[x])
    ensures var r, cur := SecondHalf(ws, s, current), Alive(current);
            (w in r.loc.memos <==> w in cur) && (w in cur ==> Placed(ws, r.loc, w, cur[w]))
  {
    SecondHalfOne(ws, s, Alive(current), current, w);
  }

  // It is in the incremental listing: it comes over the file of the old one.

  /** The path `p` is left to `u` and `v`: no other tracked document is recorded there. */
  predicate Elsewhere(loc: Local, u: Uid, v: Uid, p: Path) {
    forall w | w in loc.memos && w != u && w != v :: loc.memos[w].path != p
  }

  /** The old document is still tracked, as `prev`, and the new one not yet. */
  predicate Before(loc: Local, u: Uid, prev: MemoState, v: Uid) {
    u in loc.memos && loc.memos[u] == prev && v !in loc.memos && Elsewhere(loc, u, v, prev.path)
  }

  /** Both are tracked at one path, and the file there is the export of the new one. */
  predicate Both(ws: Workspace, loc: Local, u: Uid, prev: MemoState, v: Uid, m: Memo) {
    && u in loc.memos && loc.memos[u] == prev && v in loc.memos && loc.memos[v] == Baseline(ws, m)
    && Elsewhere(loc, u, v, prev.path)
    && prev.path in loc.files && loc.files[prev.path] == FileOf(ws, v, m)
  }

  /** The new document is tracked, the old one is not, and there is no file. */
  predicate Robbed(ws: Workspace, loc: Local, u: Uid, p: Path, v: Uid, m: Memo) {
    u !in loc.memos && v in loc.memos && loc.memos[v] == Baseline(ws, m) && Elsewhere(loc, u, v, p) && p !in loc.files
  }

  /** The other live documents are headed elsewhere. */
  predicate Alone(ws: Workspace, cur: map<Uid, Memo>, u: Uid, v: Uid) {
    u !in cur && v in cur && u != v && forall w | w in cur && w != v :: ws.PathOf(cur[w]) != ws.PathOf(cur[v])
  }

  lemma RecentListed(ws: Workspace, s: PullState, cur: map<Uid, Memo>, recent: Listing, u: Uid, prev: MemoState, v: Uid)
    requires Alone(ws, cur, u, v) && Shows(cur, recent) && prev.path == ws.PathOf(cur[v])
    requires Before(s.loc, u, prev, v) || Both(ws, s.loc, u, prev, v, cur[v])
    ensures var r := PullRecent(ws, s, recent);
            if Before(s.loc, u, prev, v) && !IsListed(recent, v) then Before(r.loc, u, prev, v)
            else Both(ws, r.loc, u, prev, v, cur[v])
    decreases |recent|
  {
    if recent != [] {
      assert recent[0] in recent;
      RecentListedStep(ws, s, cur, recent[0].0, u, prev, v);
      RecentListed(ws, PullMemo(ws, s, recent[0].0, recent[0].1), cur, recent[1..], u, prev, v);
      IsListedRest(recent, v);
    }
  }

  lemma RecentListedStep(ws: Workspace, s: PullState, cur: map<Uid, Memo>, w: Uid, u: Uid, prev: MemoState, v: Uid)
    requires Alone(ws, cur, u, v) && w in cur && prev.path == ws.PathOf(cur[v])
    ensures var r := PullMemo(ws, s, w, cur[w]);
            && (Before(s.loc, u, prev, v) ==>
                if w == v then Both(ws, r.loc, u, prev, v, cur[v]) else Before(r.loc, u, prev, v))
            && (Both(ws, s.loc, u, prev, v, cur[v]) ==> Both(ws, r.loc, u, prev, v, cur[v]))
  {
    if w != v && Elsewhere(s.loc, u, v, prev.path) { OtherRecent(ws, s, w, cur[w], u, v, prev.path); }
  }

  /** The turn of a live document recorded elsewhere and headed elsewhere. */
  lemma OtherRecent(ws: Workspace, s: PullState, w: Uid, m: Memo, u: Uid, v: Uid, p: Path)
    requires w != u && w != v && ws.PathOf(m) != p && Elsewhere(s.loc, u, v, p)
    ensures OtherKept(s.loc, PullMemo(ws, s, w, m).loc, u, v, p)
  {
  }

  lemma OtherDrifted(ws: Workspace, s: PullState, w: Uid, m: Memo, u: Uid, v: Uid, p: Path)
    requires w != u && w != v && ws.PathOf(m) != p && Elsewhere(s.loc, u, v, p) && w in s.loc.memos
    ensures OtherKept(s.loc, ReconcileDrifted(ws, s, w, m).loc, u, v, p)
  {
  }

  lemma OtherGone(s: PullState, w: Uid, u: Uid, v: Uid, p: Path)
    requires w != u && w != v && Elsewhere(s.loc, u, v, p) && w in s.loc.memos
    ensures OtherKept(s.loc, DropGone(s, w).loc, u, v, p)
  {
  }

  predicate OtherKept(a: Local, b: Local, u: Uid, v: Uid, p: Path) {
    && Elsewhere(b, u, v, p)
    && (u in b.memos <==> u in a.memos) && (u in b.memos ==> b.memos[u] == a.memos[u])
    && (v in b.memos <==> v in a.memos) && (v in b.memos ==> b.memos[v] == a.memos[v])
    && (p in b.files <==> p in a.files) && (p in b.files ==> b.files[p] == a.files[p])
  }

  lemma ReconcileListedStep(ws: Workspace, s: PullState, cur: map<Uid, Memo>, w: Uid, u: Uid, prev: MemoState, v: Uid)
    requires Alone(ws, cur, u, v) && prev.path == ws.PathOf(cur[v])
    ensures var r, m := ReconcileOne(ws, s, cur, w), cur[v];
            && (Both(ws, s.loc, u, prev, v, m) ==>
                  if w == u && PassesFor(ws, prev, v, m) then Robbed(ws, r.loc, u, prev.path, v, m)
                  else Both(ws, r.loc, u, prev, v, m))
            && (Robbed(ws, s.loc, u, prev.path, v, m) ==> Robbed(ws, r.loc, u, prev.path, v, m))
  {
    if w != u && w != v && Elsewhere(s.loc, u, v, prev.path) && w in s.loc.memos {
      if w in cur {
        OtherDrifted(ws, s, w, cur[w], u, v, prev.path);
      } else {
        OtherGone(s, w, u, v, prev.path);
      }
    }
  }

  lemma ReconcileListed(ws: Workspace, s: PullState, cur: map<Uid, Memo>, uids: seq<Uid>, u: Uid, prev: MemoState,
                        v: Uid)
    requires Alone(ws, cur, u, v) && prev.path == ws.PathOf(cur[v])
    requires Both(ws, s.loc, u, prev, v, cur[v]) || Robbed(ws, s.loc, u, prev.path, v, cur[v])
    ensures var r, m := ReconcileAll(ws, s, cur, uids), cur[v];
            if Robbed(ws, s.loc, u, prev.path, v, m) || (u in uids && PassesFor(ws, prev, v, m))
            then Robbed(ws, r.loc, u, prev.path, v, m)
            else Both(ws, r.loc, u, prev, v, m)
    decreases |uids|
  {
    if uids != [] {
      assert uids == [uids[0]] + uids[1..];
      ReconcileListedStep(ws, s, cur, uids[0], u, prev, v);
      ReconcileListed(ws, ReconcileOne(ws, s, cur, uids[0]), cur, uids[1..], u, prev, v);
    }
  }

  lemma AdoptListed(ws: Workspace, s: PullState, cur: map<Uid, Memo>, current: Listing, u: Uid, prev: MemoState, v: Uid)
    requires Alone(ws, cur, u, v) && Shows(cur, current) && prev.path == ws.PathOf(cur[v])
    ensures var r, m := AdoptAll(ws, s, current), cur[v];
            && (Both(ws, s.loc, u, prev, v, m) ==> Both(ws, r.loc, u, prev, v, m))
            && (Robbed(ws, s.loc, u, prev.path, v, m) ==> Robbed(ws, r.loc, u, prev.path, v, m))
    decreases |current|
  {
    if current != [] {
      assert current[0] in current;
      AdoptListed(ws, AdoptOne(ws, s, current[0].0, current[0].1), cur, current[1..], u, prev, v);
    }
  }

  lemma StampedKeys(ws: Workspace, s: PullState, uids: seq<Uid>)
    ensures StampAll(ws, s, uids).loc.memos == s.loc.memos && StampAll(ws, s, uids).loc.files.Keys == s.loc.files.Keys
    decreases |uids|
  {
    if uids != [] { StampedKeys(ws, StampOne(ws, s, uids[0]), uids[1..]); }
  }

  lemma ListedPull(ws: Workspace, s: PullState, recent: Listing, current: Listing, u: Uid, v: Uid)
    requires var cur := Alive(current);
             && Supplants(ws, s.loc, cur, u, v) && Shows(cur, recent) && Shows(cur, current) && IsListed(recent, v)
    ensures var cur, r := Alive(current), Pull(ws, s, recent, current).loc;
            var prev := s.loc.memos[u];
            && v in r.memos && r.memos[v] == Baseline(ws, cur[v])
            && if PassesFor(ws, prev, v, cur[v]) then u !in r.memos && prev.path !in r.files
               else u in r.memos && r.memos[u] == prev && prev.path in r.files
  {
    var cur, prev := Alive(current), s.loc.memos[u];
    var s1 := PullRecent(ws, s, recent);
    RecentListed(ws, s, cur, recent, u, prev, v);
    var s2 := ReconcileAll(ws, s1, cur, Sorted(s1.loc.memos.Keys));
    ReconcileListed(ws, s1, cur, Sorted(s1.loc.memos.Keys), u, prev, v);
    var s3 := AdoptAll(ws, s2, current);
    AdoptListed(ws, s2, cur, current, u, prev, v);
    StampedKeys(ws, s3, Sorted(s3.loc.memos.Keys));
  }

  /** From a clean checkout, a pull with this one collision ends in the server's state if and only if
      the incremental listing does not have the new document. If it does, the new document is left
      without a file when its export passes for an unedited file of the old one; otherwise the old
      document stays tracked, over the file of the new one. */
  lemma ReplacedDocument(ws: Workspace, s: PullState, recent: Listing, current: Listing, u: Uid, v: Uid)
    requires var cur := Alive(current);
             && Supplants(ws, s.loc, cur, u, v) && Clean(ws, s.loc, cur)
             && Shows(cur, recent) && Shows(cur, current)
    ensures var cur, r := Alive(current), Pull(ws, s, recent, current).loc;
            var prev := s.loc.memos[u];
            && (Converged(ws, r, cur) <==> !IsListed(recent, v))
            && (IsListed(recent, v) ==>
                  && v in r.memos && r.memos[v] == Baseline(ws, cur[v])
                  && if PassesFor(ws, prev, v, cur[v]) then u !in r.memos && prev.path !in r.files
                     else u in r.memos && r.memos[u] == prev)
  {
    var r := Pull(ws, s, recent, current).loc;
    if IsListed(recent, v) {
      ListedPull(ws, s, recent, current, u, v);
      assert u in r.memos ==> u in r.memos.Keys;
      assert Placed(ws, r, v, Alive(current)[v]) ==> ws.PathOf(Alive(current)[v]) in r.files;
    } else {
      UnlistedConverges(ws, s, recent, current, u, v);
    }
  }

  // A pull writes no file but at the paths of listed documents, and tracks no others.

  predicate Within(loc: Local, ps: set<Path>, us: set<Uid>) { loc.files.Keys <= ps && loc.memos.Keys <= us }

  predicate Aims(ws: Workspace, cur: map<Uid, Memo>, ps: set<Path>, us: set<Uid>) {
    cur.Keys <= us && forall w | w in cur :: ws.PathOf(cur[w]) in ps
  }

  lemma RecentWithin(ws: Workspace, s: PullState, cur: map<Uid, Memo>, recent: Listing, ps: set<Path>, us: set<Uid>)
    requires Shows(cur, recent) && Within(s.loc, ps, us) && Aims(ws, cur, ps, us)
    ensures Within(PullRecent(ws, s, recent).loc, ps, us)
    decreases |recent|
  {
    if recent != [] {
      assert recent[0] in recent;
      RecentWithin(ws, PullMemo(ws, s, recent[0].0, recent[0].1), cur, recent[1..], ps, us);
    }
  }

  lemma ReconcileWithin(ws: Workspace, s: PullState, cur: map<Uid, Memo>, uids: seq<Uid>, ps: set<Path>, us: set<Uid>)
    requires Within(s.loc, ps, us) && Aims(ws, cur, ps, us)
    ensures Within(ReconcileAll(ws, s, cur, uids).loc, ps, us)
    decreases |uids|
  {
    if uids != [] { ReconcileWithin(ws, ReconcileOne(ws, s, cur, uids[0]), cur, uids[1..], ps, us); }
  }

  lemma AdoptWithin(ws: Workspace, s: PullState, cur: map<Uid, Memo>, current: Listing, ps: set<Path>, us: set<Uid>)
    requires Shows(cur, current) && Within(s.loc, ps, us) && Aims(ws, cur, ps, us)
    ensures Within(AdoptAll(ws, s, current).loc, ps, us)
    decreases |current|
  {
    if current != [] {
      assert current[0] in current;
      AdoptWithin(ws, AdoptOne(ws, s, current[0].0, current[0].1), cur, current[1..], ps, us);
    }
  }

  lemma PullWithin(ws: Workspace, s: PullState, recent: Listing, current: Listing, ps: set<Path>, us: set<Uid>)
    requires var cur := Alive(current);
             Shows(cur, recent) && Shows(cur, current) && Within(s.loc, ps, us) && Aims(ws, cur, ps, us)
    ensures Within(Pull(ws, s, recent, current).loc, ps, us)
  {
    var cur := Alive(current);
    var s1 := PullRecent(ws, s, recent);
    RecentWithin(ws, s, cur, recent, ps, us);
    var s2 := ReconcileAll(ws, s1, cur, Sorted(s1.loc.memos.Keys));
    ReconcileWithin(ws, s1, cur, Sorted(s1.loc.memos.Keys), ps, us);
    var s3 := AdoptAll(ws, s2, current);
    AdoptWithin(ws, s2, cur, current, ps, us);
    StampedKeys(ws, s3, Sorted(s3.loc.memos.Keys));
  }

  /** The smallest such case: 0 was deleted and 1 created in its place with the same text, which the
      file shows. The pull that lists 1 takes its file away. */
  lemma ReplacedDocumentLosesItsFile(ws: Workspace, m: Memo, log: PullLog)
    requires !m.docType.Pdf? && Readable(ws, m)
    ensures var loc := Local(map[ws.PathOf(m) := FileOf(ws, 0, m)], map[], map[0 := Baseline(ws, m)]);
            var cur := Alive([(1, m)]);
            var r := Pull(ws, PullState(loc, log), [(1, m)], [(1, m)]).loc;
            && Supplants(ws, loc, cur, 0, 1) && Clean(ws, loc, cur)
            && cur == map[1 := m] && r.memos.Keys == {1} && r.files == map[]
  {
    var loc := Local(map[ws.PathOf(m) := FileOf(ws, 0, m)], map[], map[0 := Baseline(ws, m)]);
    var listing: Listing := [(1, m)];
    assert Alive(listing) == map[1 := m] by { assert Alive([]) == map[] && listing[..0] == []; }
    assert IsListed(listing, 1) by { assert (1, m) in listing; }
    assert !Modified(loc, 0);
    assert Supplants(ws, loc, map[1 := m], 0, 1);
    ReplacedDocument(ws, PullState(loc, log), listing, listing, 0, 1);
    PullWithin(ws, PullState(loc, log), listing, listing, {ws.PathOf(m)}, {0, 1});
    NoFileLeft(Pull(ws, PullState(loc, log), listing, listing).loc, ws.PathOf(m));
  }

  lemma NoFileLeft(loc: Local, p: Path)
    requires Within(loc, {p}, {0, 1}) && p !in loc.files && 0 !in loc.memos && 1 in loc.memos
    ensures loc.files == map[] && loc.memos.Keys == {1}
  {
    assert forall q | q in loc.files :: q in loc.files.Keys;
    assert forall u | u in loc.memos :: u in loc.memos.Keys;
  }
}
