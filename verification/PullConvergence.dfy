/** Pull brings a checkout to the server's state, whatever part of the changes the incremental
    pass saw, as long as no two documents compete for one path. */
module PullConvergence {
  import opened Checkout
  import opened PullSafety
  import opened PullSteps

  /** No two documents are recorded at, or headed for, the same path. */
  predicate NoCollision(ws: Workspace, loc: Local, cur: map<Uid, Memo>) {
    && (forall u, v | u in loc.memos && v in loc.memos && u != v :: loc.memos[u].path != loc.memos[v].path)
    && (forall u, v | u in loc.memos && v in cur && u != v :: loc.memos[u].path != ws.PathOf(cur[v]))
    && (forall u, v | u in cur && v in cur && u != v :: ws.PathOf(cur[u]) != ws.PathOf(cur[v]))
  }

  /** The listing shows the documents of `cur` only, and each as it is there. */
  predicate Shows(cur: map<Uid, Memo>, listing: Listing) {
    forall e | e in listing :: e.0 in cur && cur[e.0] == e.1
  }

  /** The document is tracked, in step with the server, and its file is there. */
  predicate Placed(ws: Workspace, loc: Local, u: Uid, m: Memo) {
    u in loc.memos && InSync(ws, loc.memos[u], m) && loc.memos[u].path in loc.files
  }

  /** Nothing local keeps a pull from bringing the document to the server's state `m`: it is not
      tracked, or in step with its file there, or no PDF and without unpushed edits. */
  predicate Open(ws: Workspace, loc: Local, u: Uid, m: Memo) {
    u in loc.memos ==>
      var prev := loc.memos[u];
      if InSync(ws, prev, m) then prev.path in loc.files
      else AnyPdf(prev, m) || (prev.path in loc.files && LocalHash(loc.files[prev.path]) == prev.hash)
  }

  /** No unpushed edit and no missing file stands in the way of a pull. */
  predicate Clean(ws: Workspace, loc: Local, cur: map<Uid, Memo>) {
    && (forall u | u in loc.memos && u !in cur :: !Modified(loc, u))
    && (forall u | u in cur :: Open(ws, loc, u, cur[u]))
  }

  /** Exactly the live documents are tracked, each in step with the server and with its file. */
  predicate Converged(ws: Workspace, loc: Local, cur: map<Uid, Memo>) {
    loc.memos.Keys == cur.Keys && forall u | u in cur :: Placed(ws, loc, u, cur[u])
  }

  /** The file a pull leaves for the document: the one that was in step already, or an export. */
  function Source(ws: Workspace, start: Local, u: Uid, m: Memo): File {
    if Placed(ws, start, u, m) then start.files[ws.PathOf(m)] else FileOf(ws, u, m)
  }

  function TypeOf(ws: Workspace, start: Local, u: Uid, m: Memo): DocType {
    if Placed(ws, start, u, m) then start.memos[u].docType else m.docType
  }

  /** The document is in step, with that file. */
  predicate Settled(ws: Workspace, start: Local, loc: Local, u: Uid, m: Memo) {
    && Placed(ws, loc, u, m) && loc.memos[u].docType == TypeOf(ws, start, u, m)
    && loc.files[ws.PathOf(m)] == Source(ws, start, u, m)
  }

  /** The same with the marker of the file put right. */
  predicate Final(ws: Workspace, start: Local, loc: Local, u: Uid, m: Memo) {
    && Placed(ws, loc, u, m) && loc.memos[u].docType == TypeOf(ws, start, u, m)
    && loc.files[ws.PathOf(m)] == Restamped(ws, u, TypeOf(ws, start, u, m), Source(ws, start, u, m))
  }

  /** An exported file shows the server's text, also after its marker was put right. */
  predicate Shown(ws: Workspace, u: Uid, m: Memo) {
    LocalHash(Restamped(ws, u, m.docType, FileOf(ws, u, m))) == Hash(m.content)
  }

  /** Stamping leaves the document's file as it is. */
  predicate Marked(ws: Workspace, loc: Local, u: Uid)
    requires u in loc.memos
  {
    var ms := loc.memos[u];
    ms.path in loc.files ==> Restamped(ws, u, ms.docType, loc.files[ms.path]) == loc.files[ms.path]
  }

  ghost predicate Owned(loc: Local, p: Path) {
    exists u | u in loc.memos :: loc.memos[u].path == p
  }

  /** Files that belong to no tracked document. */
  ghost function Strays(loc: Local): set<Path> {
    set p | p in loc.files && !Owned(loc, p)
  }

  /** Neither the baseline nor the file of `u` changed. */
  predicate Untouched(a: Local, b: Local, u: Uid) {
    if u in a.memos then
      && u in b.memos && b.memos[u] == a.memos[u]
      && var p := a.memos[u].path;
         if p in a.files then p in b.files && b.files[p] == a.files[p] else p !in b.files
    else u !in b.memos
  }

  /** How a live document stands before the files are stamped: if nothing was in the way, it is as
      it was or brought in step; otherwise what is in the way still is. */
  predicate Going(ws: Workspace, a: Local, b: Local, u: Uid, m: Memo) {
    if Open(ws, a, u, m) then Untouched(a, b, u) || Settled(ws, a, b, u, m)
    else u in b.memos && !Open(ws, b, u, m)
  }

  lemma GoingOn(ws: Workspace, a: Local, b: Local, c: Local, u: Uid, m: Memo)
    requires Going(ws, a, b, u, m) && Going(ws, b, c, u, m)
    ensures Going(ws, a, c, u, m)
    ensures Open(ws, a, u, m) ==> Open(ws, b, u, m) && (Settled(ws, b, c, u, m) ==> Settled(ws, a, c, u, m))
  {
  }

  /** What one document's turn may do: only that document changes, no collision and no stray appears. */
  ghost predicate Turn(ws: Workspace, cur: map<Uid, Memo>, a: Local, b: Local, v: Uid) {
    && NoCollision(ws, b, cur)
    && (forall u | u != v :: Untouched(a, b, u))
    && Strays(b) <= Strays(a)
  }

  lemma NoNewStrays(a: Local, b: Local, v: Uid)
    requires forall u | u != v :: Untouched(a, b, u)
    requires v in a.memos && a.memos[v].path in b.files ==> v in b.memos && b.memos[v].path == a.memos[v].path
    requires forall p | p in b.files :: p in a.files || (v in b.memos && b.memos[v].path == p)
    ensures Strays(b) <= Strays(a)
  {
    forall p | p in b.files && Owned(a, p) ensures Owned(b, p) {
      var u :| u in a.memos && a.memos[u].path == p;
      assert u == v || Untouched(a, b, u);
      assert u in b.memos && b.memos[u].path == p;
    }
    forall p | p in b.files && p !in a.files ensures Owned(b, p) {
      assert b.memos[v].path == p;
    }
  }

  lemma AdoptedTurn(ws: Workspace, loc: Local, cur: map<Uid, Memo>, v: Uid)
    requires NoCollision(ws, loc, cur) && v in cur && v !in loc.memos
    ensures var r := Adopted(ws, loc, v, cur[v]);
            Turn(ws, cur, loc, r, v) && Settled(ws, loc, r, v, cur[v])
  {
    NoNewStrays(loc, Adopted(ws, loc, v, cur[v]), v);
  }

  lemma RelocatedTurn(ws: Workspace, loc: Local, cur: map<Uid, Memo>, v: Uid, drop: bool)
    requires NoCollision(ws, loc, cur) && v in cur && v in loc.memos && !InSync(ws, loc.memos[v], cur[v])
    ensures var r := Relocated(ws, loc, v, cur[v], drop);
            Turn(ws, cur, loc, r, v) && Settled(ws, loc, r, v, cur[v])
  {
    NoNewStrays(loc, Relocated(ws, loc, v, cur[v], drop), v);
  }

  lemma ConflictedTurn(ws: Workspace, loc: Local, cur: map<Uid, Memo>, v: Uid)
    requires NoCollision(ws, loc, cur) && v in cur && v in loc.memos && !Open(ws, loc, v, cur[v])
    ensures var r := Conflicted(ws, loc, v, cur[v]);
            Turn(ws, cur, loc, r, v) && v in r.memos && !Open(ws, r, v, cur[v])
  {
    NoNewStrays(loc, Conflicted(ws, loc, v, cur[v]), v);
  }

  lemma GoneTurn(ws: Workspace, s: PullState, cur: map<Uid, Memo>, v: Uid)
    requires NoCollision(ws, s.loc, cur) && v in s.loc.memos
    ensures var r := DropGone(s, v);
            && Turn(ws, cur, s.loc, r.loc, v)
            && if Modified(s.loc, v) then r.loc == s.loc else v !in r.loc.memos
  {
    NoNewStrays(s.loc, DropGone(s, v).loc, v);
  }

  lemma SameTurn(ws: Workspace, loc: Local, cur: map<Uid, Memo>, v: Uid)
    requires NoCollision(ws, loc, cur)
    ensures Turn(ws, cur, loc, loc, v)
  {
  }

  /** Where nothing is in the way, a listed document is in step after its turn. */
  lemma RecentTurn(ws: Workspace, s: PullState, cur: map<Uid, Memo>, v: Uid)
    requires NoCollision(ws, s.loc, cur) && v in cur
    ensures var r := PullMemo(ws, s, v, cur[v]);
            && Turn(ws, cur, s.loc, r.loc, v)
            && v in r.loc.memos
            && if Open(ws, s.loc, v, cur[v]) then Settled(ws, s.loc, r.loc, v, cur[v]) else !Open(ws, r.loc, v, cur[v])
  {
    if v !in s.loc.memos {
      AdoptedTurn(ws, s.loc, cur, v);
    } else {
      SameTurn(ws, s.loc, cur, v);
      if !InSync(ws, s.loc.memos[v], cur[v]) {
        RelocatedTurn(ws, s.loc, cur, v, !AnyPdf(s.loc.memos[v], cur[v]));
        if !Open(ws, s.loc, v, cur[v]) { ConflictedTurn(ws, s.loc, cur, v); }
      }
    }
  }

  lemma DriftedTurn(ws: Workspace, s: PullState, cur: map<Uid, Memo>, v: Uid)
    requires NoCollision(ws, s.loc, cur) && v in s.loc.memos && v in cur
    ensures var r := ReconcileDrifted(ws, s, v, cur[v]);
            && Turn(ws, cur, s.loc, r.loc, v)
            && v in r.loc.memos
            && if Open(ws, s.loc, v, cur[v]) then Settled(ws, s.loc, r.loc, v, cur[v]) else !Open(ws, r.loc, v, cur[v])
  {
    SameTurn(ws, s.loc, cur, v);
    if !InSync(ws, s.loc.memos[v], cur[v]) {
      if Open(ws, s.loc, v, cur[v]) {
        RelocatedTurn(ws, s.loc, cur, v, true);
      } else {
        ConflictedTurn(ws, s.loc, cur, v);
      }
    }
  }

  lemma AdoptTurn(ws: Workspace, s: PullState, cur: map<Uid, Memo>, v: Uid)
    requires NoCollision(ws, s.loc, cur) && v in cur
    ensures var r := AdoptOne(ws, s, v, cur[v]);
            && Turn(ws, cur, s.loc, r.loc, v)
            && v in r.loc.memos
            && (v !in s.loc.memos ==> Settled(ws, s.loc, r.loc, v, cur[v]))
            && (v in s.loc.memos ==> r == s)
  {
    if v !in s.loc.memos { AdoptedTurn(ws, s.loc, cur, v); } else { SameTurn(ws, s.loc, cur, v); }
  }

  lemma StampTurn(ws: Workspace, s: PullState, cur: map<Uid, Memo>, v: Uid)
    requires NoCollision(ws, s.loc, cur)
    ensures var r := StampOne(ws, s, v);
            && Turn(ws, cur, s.loc, r.loc, v)
            && r.loc.memos == s.loc.memos && r.loc.files.Keys == s.loc.files.Keys
  {
    NoNewStrays(s.loc, StampOne(ws, s, v).loc, v);
  }

  ghost predicate Kept(ws: Workspace, cur: map<Uid, Memo>, a: Local, b: Local) {
    NoCollision(ws, b, cur) && Strays(b) <= Strays(a)
  }

  lemma RecentPass(ws: Workspace, s: PullState, cur: map<Uid, Memo>, recent: Listing, u: Uid)
    requires NoCollision(ws, s.loc, cur) && Shows(cur, recent)
    ensures var r := PullRecent(ws, s, recent);
            && Kept(ws, cur, s.loc, r.loc)
            && if u in cur then Going(ws, s.loc, r.loc, u, cur[u]) else Untouched(s.loc, r.loc, u)
    decreases |recent|
  {
    if recent != [] {
      var v := recent[0].0;
      assert recent[0] in recent;
      RecentTurn(ws, s, cur, v);
      var s1 := PullMemo(ws, s, v, cur[v]);
      assert u == v || Untouched(s.loc, s1.loc, u);
      RecentPass(ws, s1, cur, recent[1..], u);
      if u in cur { GoingOn(ws, s.loc, s1.loc, PullRecent(ws, s1, recent[1..]).loc, u, cur[u]); }
    }
  }

  lemma ReconcilePass(ws: Workspace, s: PullState, cur: map<Uid, Memo>, uids: seq<Uid>, u: Uid)
    requires NoCollision(ws, s.loc, cur)
    ensures var r := ReconcileAll(ws, s, cur, uids);
            && Kept(ws, cur, s.loc, r.loc)
            && (u !in s.loc.memos ==> u !in r.loc.memos)
            && if u in cur then
                 && Going(ws, s.loc, r.loc, u, cur[u])
                 && (u in s.loc.memos && u in uids && Open(ws, s.loc, u, cur[u]) ==>
                     Settled(ws, s.loc, r.loc, u, cur[u]))
               else if u in uids then u in r.loc.memos <==> Modified(s.loc, u)
               else Untouched(s.loc, r.loc, u)
    decreases |uids|
  {
    if uids != [] {
      var v := uids[0];
      var s1 := ReconcileOne(ws, s, cur, v);
      ReconcileTurn(ws, s, cur, v);
      assert u == v || Untouched(s.loc, s1.loc, u);
      ReconcilePass(ws, s1, cur, uids[1..], u);
      assert uids == [v] + uids[1..];
      if u in cur { GoingOn(ws, s.loc, s1.loc, ReconcileAll(ws, s1, cur, uids[1..]).loc, u, cur[u]); }
    }
  }

  lemma ReconcileTurn(ws: Workspace, s: PullState, cur: map<Uid, Memo>, v: Uid)
    requires NoCollision(ws, s.loc, cur)
    ensures var r := ReconcileOne(ws, s, cur, v);
            && Turn(ws, cur, s.loc, r.loc, v)
            && (v !in s.loc.memos ==> r == s)
            && (v in s.loc.memos && v in cur ==>
                  && v in r.loc.memos
                  && if Open(ws, s.loc, v, cur[v]) then Settled(ws, s.loc, r.loc, v, cur[v])
                     else !Open(ws, r.loc, v, cur[v]))
            && (v in s.loc.memos && v !in cur ==> if Modified(s.loc, v) then r.loc == s.loc else v !in r.loc.memos)
  {
    if v !in s.loc.memos {
      SameTurn(ws, s.loc, cur, v);
    } else if v in cur {
      DriftedTurn(ws, s, cur, v);
    } else {
      GoneTurn(ws, s, cur, v);
    }
  }

  predicate IsListed(listing: Listing, u: Uid) { exists e | e in listing :: e.0 == u }

  lemma AdoptPass(ws: Workspace, s: PullState, cur: map<Uid, Memo>, current: Listing, u: Uid)
    requires NoCollision(ws, s.loc, cur) && Shows(cur, current)
    ensures var r := AdoptAll(ws, s, current);
            && Kept(ws, cur, s.loc, r.loc)
            && (u in r.loc.memos <==> u in s.loc.memos || IsListed(current, u))
            && if u in cur && u !in s.loc.memos && IsListed(current, u) then Settled(ws, s.loc, r.loc, u, cur[u])
               else Untouched(s.loc, r.loc, u)
    decreases |current|
  {
    if current != [] {
      var v := current[0].0;
      assert current[0] in current;
      AdoptTurn(ws, s, cur, v);
      var s1 := AdoptOne(ws, s, v, cur[v]);
      assert u == v || Untouched(s.loc, s1.loc, u);
      AdoptPass(ws, s1, cur, current[1..], u);
      IsListedRest(current, u);
    }
  }

  lemma IsListedRest(listing: Listing, u: Uid)
    requires listing != []
    ensures IsListed(listing, u) <==> listing[0].0 == u || IsListed(listing[1..], u)
  {
    assert listing == [listing[0]] + listing[1..];
  }

  /** Every tracked file that is there is stamped once. */
  lemma StampPass(ws: Workspace, s: PullState, cur: map<Uid, Memo>, uids: seq<Uid>, u: Uid)
    requires NoCollision(ws, s.loc, cur) && Ascending(uids)
    ensures var r := StampAll(ws, s, uids);
            && Kept(ws, cur, s.loc, r.loc)
            && r.loc.memos == s.loc.memos && r.loc.files.Keys == s.loc.files.Keys
            && (u in s.loc.memos && s.loc.memos[u].path in s.loc.files ==>
                  var ms := s.loc.memos[u];
                  r.loc.files[ms.path] == if u in uids then Restamped(ws, u, ms.docType, s.loc.files[ms.path])
                                          else s.loc.files[ms.path])
    decreases |uids|
  {
    if uids != [] {
      StampTurn(ws, s, cur, uids[0]);
      AscendingRest(uids);
      assert u == uids[0] || Untouched(s.loc, StampOne(ws, s, uids[0]).loc, u);
      StampPass(ws, StampOne(ws, s, uids[0]), cur, uids[1..], u);
    }
  }

  /** A pull in two halves: what goes by the old baseline, and what comes behind. */
  function FirstHalf(ws: Workspace, s: PullState, recent: Listing, alive: map<Uid, Memo>): PullState {
    var s1 := PullRecent(ws, s, recent);
    ReconcileAll(ws, s1, alive, Sorted(s1.loc.memos.Keys))
  }

  function SecondHalf(ws: Workspace, s: PullState, current: Listing): PullState {
    var s3 := AdoptAll(ws, s, current);
    StampAll(ws, s3, Sorted(s3.loc.memos.Keys))
  }

  lemma FirstHalfOne(ws: Workspace, s: PullState, cur: map<Uid, Memo>, recent: Listing, u: Uid)
    requires NoCollision(ws, s.loc, cur) && Shows(cur, recent)
    ensures var r := FirstHalf(ws, s, recent, cur);
            && Kept(ws, cur, s.loc, r.loc)
            && if u in cur then
                 && Going(ws, s.loc, r.loc, u, cur[u])
                 && (u in r.loc.memos && Open(ws, s.loc, u, cur[u]) ==> Settled(ws, s.loc, r.loc, u, cur[u]))
               else u in r.loc.memos <==> Modified(s.loc, u)
  {
    var s1 := PullRecent(ws, s, recent);
    RecentPass(ws, s, cur, recent, u);
    ReconcilePass(ws, s1, cur, Sorted(s1.loc.memos.Keys), u);
    if u in cur { GoingOn(ws, s.loc, s1.loc, FirstHalf(ws, s, recent, cur).loc, u, cur[u]); }
  }

  lemma SecondHalfOne(ws: Workspace, s: PullState, cur: map<Uid, Memo>, current: Listing, u: Uid)
    requires NoCollision(ws, s.loc, cur) && Shows(cur, current) && cur.Keys == Alive(current).Keys
    ensures var r := SecondHalf(ws, s, current);
            && Kept(ws, cur, s.loc, r.loc)
            && (u in r.loc.memos <==> u in s.loc.memos || u in cur)
            && (u in cur && (u in s.loc.memos ==> Placed(ws, s.loc, u, cur[u])) ==> Final(ws, s.loc, r.loc, u, cur[u]))
            && (u in cur && u in s.loc.memos && !Placed(ws, s.loc, u, cur[u]) ==> !Placed(ws, r.loc, u, cur[u]))
            && (u in r.loc.memos ==> Branded(ws, r.loc, u))
  {
    var s3 := AdoptAll(ws, s, current);
    AdoptPass(ws, s, cur, current, u);
    StampPass(ws, s3, cur, Sorted(s3.loc.memos.Keys), u);
    ListedAlive(current, u);
    if u in s3.loc.memos { StampedIs(ws, s3.loc, SecondHalf(ws, s, current).loc, u); }
    if u in cur { StampedIsFinal(ws, s.loc, s3.loc, SecondHalf(ws, s, current).loc, u, cur[u]); }
  }

  /** From `b` to `c` the file of `u`, where it is there, was stamped. */
  predicate StampedFrom(ws: Workspace, b: Local, c: Local, u: Uid) {
    && c.memos == b.memos && c.files.Keys == b.files.Keys
    && (u in b.memos && b.memos[u].path in b.files ==>
          c.files[b.memos[u].path] == Restamped(ws, u, b.memos[u].docType, b.files[b.memos[u].path]))
  }

  lemma StampedIs(ws: Workspace, b: Local, c: Local, u: Uid)
    requires StampedFrom(ws, b, c, u) && u in b.memos
    ensures Branded(ws, c, u)
  {
  }

  lemma StampedIsFinal(ws: Workspace, a: Local, b: Local, c: Local, u: Uid, m: Memo)
    requires StampedFrom(ws, b, c, u)
    requires Settled(ws, a, b, u, m) || Untouched(a, b, u)
    ensures Settled(ws, a, b, u, m) || (u in a.memos && Placed(ws, a, u, m)) ==> Final(ws, a, c, u, m)
    ensures u in a.memos && Untouched(a, b, u) && !Placed(ws, a, u, m) ==> !Placed(ws, c, u, m)
  {
  }

  lemma ListedAlive(current: Listing, u: Uid)
    ensures u in Alive(current) <==> IsListed(current, u)
  {
  }

  /** The document's file, where it is there, was stamped. */
  ghost predicate Branded(ws: Workspace, loc: Local, u: Uid)
    requires u in loc.memos
  {
    var ms := loc.memos[u];
    ms.path in loc.files ==> exists f :: loc.files[ms.path] == Restamped(ws, u, ms.docType, f)
  }

  /** One document followed through a whole pull. */
  lemma PullOne(ws: Workspace, s: PullState, recent: Listing, current: Listing, u: Uid)
    requires var cur := Alive(current);
             NoCollision(ws, s.loc, cur) && Shows(cur, recent) && Shows(cur, current)
    ensures var cur, r := Alive(current), Pull(ws, s, recent, current);
            && Kept(ws, cur, s.loc, r.loc)
            && (u in r.loc.memos <==> u in cur || Modified(s.loc, u))
            && (u in r.loc.memos ==> Branded(ws, r.loc, u))
            && (u in cur ==> if Open(ws, s.loc, u, cur[u]) then Final(ws, s.loc, r.loc, u, cur[u])
                             else !Placed(ws, r.loc, u, cur[u]))
  {
    var cur := Alive(current);
    var s2 := FirstHalf(ws, s, recent, cur);
    FirstHalfOne(ws, s, cur, recent, u);
    SecondHalfOne(ws, s2, cur, current, u);
    assert Pull(ws, s, recent, current) == SecondHalf(ws, s2, current);
    if u in cur { FinalFrom(ws, s.loc, s2.loc, Pull(ws, s, recent, current).loc, u, cur[u]); }
  }

  lemma FinalFrom(ws: Workspace, a: Local, b: Local, c: Local, u: Uid, m: Memo)
    requires Going(ws, a, b, u, m)
    ensures Settled(ws, a, b, u, m) && Final(ws, b, c, u, m) ==> Final(ws, a, c, u, m)
    ensures Open(ws, a, u, m) && u !in b.memos && Final(ws, b, c, u, m) ==> Final(ws, a, c, u, m)
  {
  }

  /** Without any assumption on local edits: a pull ends up tracking exactly the live documents
      and the gone ones that hold unpushed edits, and every tracked file was stamped. */
  lemma TrackedAfterPull(ws: Workspace, s: PullState, recent: Listing, current: Listing)
    requires var cur := Alive(current);
             NoCollision(ws, s.loc, cur) && Shows(cur, recent) && Shows(cur, current)
    ensures var cur, r := Alive(current), Pull(ws, s, recent, current);
            && (forall u :: u in r.loc.memos <==> u in cur || Modified(s.loc, u))
            && (forall u | u in r.loc.memos :: Branded(ws, r.loc, u))
            && NoCollision(ws, r.loc, cur)
            && Strays(r.loc) <= Strays(s.loc)
  {
    PullOne(ws, s, recent, current, 0);
    forall u { PullOne(ws, s, recent, current, u); }
  }

  /** Without path collisions a pull brings the checkout to the server's state if and only if no
      unpushed edit and no missing file is in the way. Then every file is the one that was in step
      already or the server's export, with its marker put right; an exported one shows the server's
      text if and only if that text reads back; and every other file was a stray before. */
  lemma PullConverges(ws: Workspace, s: PullState, recent: Listing, current: Listing)
    requires var cur := Alive(current);
             NoCollision(ws, s.loc, cur) && Shows(cur, recent) && Shows(cur, current)
    ensures var cur, r := Alive(current), Pull(ws, s, recent, current);
            && (Converged(ws, r.loc, cur) <==> Clean(ws, s.loc, cur))
            && (Clean(ws, s.loc, cur) ==>
                 && (forall u | u in cur :: Final(ws, s.loc, r.loc, u, cur[u]))
                 && (forall u | u in cur && !Placed(ws, s.loc, u, cur[u]) ::
                       LocalHash(r.loc.files[ws.PathOf(cur[u])]) == Hash(cur[u].content) <==> Shown(ws, u, cur[u]))
                 && (forall p | p in r.loc.files ::
                       p in Strays(s.loc) || exists u | u in cur :: ws.PathOf(cur[u]) == p))
  {
    var cur, r := Alive(current), Pull(ws, s, recent, current);
    TrackedAfterPull(ws, s, recent, current);
    forall u | u in cur
      ensures if Open(ws, s.loc, u, cur[u]) then Final(ws, s.loc, r.loc, u, cur[u]) else !Placed(ws, r.loc, u, cur[u])
    {
      PullOne(ws, s, recent, current, u);
    }
    ConvergedIsClean(ws, s.loc, r.loc, cur);
    if Clean(ws, s.loc, cur) { FilesAreOwned(ws, s.loc, r.loc, cur); }
  }

  lemma ConvergedIsClean(ws: Workspace, a: Local, b: Local, cur: map<Uid, Memo>)
    requires forall u :: u in b.memos <==> u in cur || Modified(a, u)
    requires forall u | u in cur :: if Open(ws, a, u, cur[u]) then Final(ws, a, b, u, cur[u])
        else !Placed(ws, b, u, cur[u])
    ensures Converged(ws, b, cur) <==> Clean(ws, a, cur)
  {
    if Clean(ws, a, cur) {
      assert forall u | u in cur :: Open(ws, a, u, cur[u]);
    } else if forall u | u in cur :: Open(ws, a, u, cur[u]) {
      var u :| u in a.memos && u !in cur && Modified(a, u);
      assert u in b.memos.Keys;
    } else {
      var u :| u in cur && !Open(ws, a, u, cur[u]);
      assert !Placed(ws, b, u, cur[u]);
    }
  }

  lemma FilesAreOwned(ws: Workspace, a: Local, b: Local, cur: map<Uid, Memo>)
    requires Converged(ws, b, cur) && Strays(b) <= Strays(a)
    ensures forall p | p in b.files :: p in Strays(a) || exists u | u in cur :: ws.PathOf(cur[u]) == p
  {
    forall p | p in b.files && p !in Strays(a) ensures exists u | u in cur :: ws.PathOf(cur[u]) == p {
      assert p !in Strays(b);
      var u :| u in b.memos && b.memos[u].path == p;
      assert u in cur && Placed(ws, b, u, cur[u]);
    }
  }

  /** Pulling again changes nothing at all if and only if stamping the files again changes nothing. */
  lemma SecondPull(ws: Workspace, s: PullState, recent: Listing, current: Listing)
    requires var cur := Alive(current);
             && NoCollision(ws, s.loc, cur) && Converged(ws, s.loc, cur)
             && Shows(cur, recent) && Shows(cur, current)
    ensures Pull(ws, s, recent, current) == s <==> forall u | u in s.loc.memos :: Marked(ws, s.loc, u)
  {
    var cur, uids := Alive(current), Sorted(s.loc.memos.Keys);
    StillRecent(ws, s, cur, recent);
    StillReconcile(ws, s, cur, uids);
    StillAdopt(ws, s, cur, current);
    if forall u | u in s.loc.memos :: Marked(ws, s.loc, u) {
      StillStamp(ws, s, uids);
    } else {
      var u :| u in s.loc.memos && !Marked(ws, s.loc, u);
      StampPass(ws, s, cur, uids, u);
    }
  }

  lemma StillRecent(ws: Workspace, s: PullState, cur: map<Uid, Memo>, recent: Listing)
    requires Converged(ws, s.loc, cur) && Shows(cur, recent)
    ensures PullRecent(ws, s, recent) == s
    decreases |recent|
  {
    if recent != [] {
      assert recent[0] in recent && Placed(ws, s.loc, recent[0].0, recent[0].1);
      assert PullMemo(ws, s, recent[0].0, recent[0].1) == s;
      StillRecent(ws, s, cur, recent[1..]);
    }
  }

  lemma StillReconcile(ws: Workspace, s: PullState, cur: map<Uid, Memo>, uids: seq<Uid>)
    requires Converged(ws, s.loc, cur)
    ensures ReconcileAll(ws, s, cur, uids) == s
    decreases |uids|
  {
    if uids != [] {
      assert uids[0] in s.loc.memos.Keys ==> Placed(ws, s.loc, uids[0], cur[uids[0]]);
      StillReconcile(ws, s, cur, uids[1..]);
    }
  }

  lemma StillAdopt(ws: Workspace, s: PullState, cur: map<Uid, Memo>, current: Listing)
    requires Converged(ws, s.loc, cur) && Shows(cur, current)
    ensures AdoptAll(ws, s, current) == s
    decreases |current|
  {
    if current != [] {
      assert current[0] in current && Placed(ws, s.loc, current[0].0, current[0].1);
      StillAdopt(ws, s, cur, current[1..]);
    }
  }

  lemma StillStamp(ws: Workspace, s: PullState, uids: seq<Uid>)
    requires forall u | u in s.loc.memos :: Marked(ws, s.loc, u)
    ensures StampAll(ws, s, uids) == s
    decreases |uids|
  {
    if uids != [] {
      var u := uids[0];
      if u in s.loc.memos && s.loc.memos[u].path in s.loc.files {
        assert Marked(ws, s.loc, u);
        assert StampOne(ws, s, u).loc.files == s.loc.files;
      }
      assert StampOne(ws, s, u) == s;
      StillStamp(ws, s, uids[1..]);
    }
  }

  /** A file nobody tracks does not survive a live, untracked document that maps to its path:
      whatever it held, it ends up as the server's export. */
  lemma StrayIsOverwritten(ws: Workspace, s: PullState, recent: Listing, current: Listing, v: Uid)
    requires var cur := Alive(current);
             NoCollision(ws, s.loc, cur) && Shows(cur, recent) && Shows(cur, current)
    requires v in Alive(current) && v !in s.loc.memos && ws.PathOf(Alive(current)[v]) in Strays(s.loc)
    ensures var m, r := Alive(current)[v], Pull(ws, s, recent, current);
            && ws.PathOf(m) in r.loc.files
            && r.loc.files[ws.PathOf(m)] == Restamped(ws, v, m.docType, FileOf(ws, v, m))
  {
    PullOne(ws, s, recent, current, v);
  }
}
