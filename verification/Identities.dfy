/** Which document a work-tree file is: its own marker decides, and the recorded path is the
    fallback for documents no marker claims. */
module Identities {
  import opened Options
  import opened Checkout

  type Memos = map<Uid, MemoState>

  predicate Claims(docs: seq<LocalDoc>, memos: Memos, i: nat, u: Uid)
    requires i < |docs|
  {
    docs[i].marker == Some(u) && u in memos
  }

  predicate AtHome(docs: seq<LocalDoc>, memos: Memos, i: nat, u: Uid)
    requires i < |docs|
  {
    Claims(docs, memos, i, u) && docs[i].path == memos[u].path
  }

  /** File `i` is the one that keeps the identity `u` its marker names, among the first `n`
      files: the file at the recorded path, or else the first with that marker. */
  predicate MarkerWins(docs: seq<LocalDoc>, memos: Memos, n: nat, i: nat, u: Uid)
    requires i < n <= |docs|
  {
    && Claims(docs, memos, i, u)
    && (AtHome(docs, memos, i, u)
        || ((forall j | 0 <= j < n :: !AtHome(docs, memos, j, u))
            && (forall j | 0 <= j < i :: !Claims(docs, memos, j, u))))
  }

  predicate ClaimedByMarker(docs: seq<LocalDoc>, memos: Memos, u: Uid) {
    exists j | 0 <= j < |docs| :: Claims(docs, memos, j, u)
  }

  /** A lookup from recorded paths to uids; unique when no two documents share a path. */
  predicate IsPathIndex(idx: map<Path, Uid>, memos: Memos) {
    && (forall p | p in idx :: idx[p] in memos && memos[idx[p]].path == p)
    && (forall u | u in memos :: memos[u].path in idx)
  }

  /** The identity file `i` ends up with. */
  function Identity(docs: seq<LocalDoc>, memos: Memos, idx: map<Path, Uid>, i: nat): Option<Uid>
    requires i < |docs|
  {
    if docs[i].marker.Some? && MarkerWins(docs, memos, |docs|, i, docs[i].marker.value) then docs[i].marker
    else if docs[i].path in idx && !ClaimedByMarker(docs, memos, idx[docs[i].path]) then Some(idx[docs[i].path])
    else None
  }

  predicate DistinctPaths(docs: seq<LocalDoc>) {
    forall i, j | 0 <= i < j < |docs| :: docs[i].path != docs[j].path
  }

  /** The files with their identities filled in. */
  predicate Resolved(before: seq<LocalDoc>, after: seq<LocalDoc>, memos: Memos, idx: map<Path, Uid>) {
    && |after| == |before|
    && forall i | 0 <= i < |before| :: after[i] == before[i].(uid := Identity(before, memos, idx, i))
  }

  method PathIndex(memos: Memos) returns (idx: map<Path, Uid>)
    ensures IsPathIndex(idx, memos)
  {
    idx := map[];
    var todo := memos.Keys;
    while todo != {}
      invariant todo <= memos.Keys
      invariant forall p | p in idx :: idx[p] in memos && memos[idx[p]].path == p
      invariant forall u | u in memos && u !in todo :: memos[u].path in idx
    {
      var u :| u in todo;
      idx := idx[memos[u].path := u];
      todo := todo - {u};
    }
  }

  /** The uid file `j` has once the first `n` files' markers were looked at. */
  function ByMarker(docs: seq<LocalDoc>, claimed: map<Uid, nat>, j: nat): Option<Uid>
    requires j < |docs|
  {
    var m := docs[j].marker;
    if m.Some? && m.value in claimed && claimed[m.value] == j then m else None
  }

  /** Each claimed uid maps to its winner among the first `n` files, and every marker there is claimed. */
  ghost predicate Winners(docs: seq<LocalDoc>, memos: Memos, claimed: map<Uid, nat>, n: nat)
    requires n <= |docs|
  {
    && (forall u | u in claimed :: claimed[u] < n && MarkerWins(docs, memos, n, claimed[u], u))
    && (forall u, j | 0 <= j < n && Claims(docs, memos, j, u) :: u in claimed)
  }

  /** How one more marked file changes the claims: it takes an unclaimed uid, and displaces a
      winner only when it sits at the recorded path and the winner does not. */
  predicate Takes(docs: seq<LocalDoc>, memos: Memos, claimed: map<Uid, nat>, i: nat)
    requires i < |docs| && forall u | u in claimed :: claimed[u] < |docs|
  {
    var m := docs[i].marker;
    m.Some? && m.value in memos &&
    (m.value in claimed ==>
      docs[claimed[m.value]].path != memos[m.value].path && docs[i].path == memos[m.value].path)
  }

  lemma WinnersStep(docs: seq<LocalDoc>, memos: Memos, claimed: map<Uid, nat>, i: nat)
    requires i < |docs| && Winners(docs, memos, claimed, i)
    ensures var next := if Takes(docs, memos, claimed, i) then claimed[docs[i].marker.value := i] else claimed;
            Winners(docs, memos, next, i + 1)
  {
    forall u | u in claimed && Claims(docs, memos, i, u) && !Takes(docs, memos, claimed, i)
      ensures MarkerWins(docs, memos, i + 1, claimed[u], u)
    {
      assert MarkerWins(docs, memos, i, claimed[u], u);
    }
  }

  method ResolveMarkers(docs: array<LocalDoc>, memos: Memos) returns (claimed: map<Uid, nat>)
    requires forall i | 0 <= i < docs.Length :: docs[i].uid == None
    modifies docs
    ensures Winners(old(docs[..]), memos, claimed, docs.Length)
    ensures forall j | 0 <= j < docs.Length :: docs[j] == old(docs[..])[j].(uid := ByMarker(old(docs[..]), claimed, j))
  {
    ghost var ds := docs[..];
    claimed := map[];
    for i := 0 to docs.Length
      invariant Winners(ds, memos, claimed, i)
      invariant forall j | 0 <= j < docs.Length :: docs[j] == ds[j].(uid := ByMarker(ds, claimed, j))
    {
      WinnersStep(ds, memos, claimed, i);
      var doc := docs[i];
      if doc.marker.Some? && doc.marker.value in memos {
        var u := doc.marker.value;
        if u in claimed {
          var winner := claimed[u];
          if docs[winner].path == memos[u].path || doc.path != memos[u].path {
            continue;
          }
          docs[winner] := docs[winner].(uid := None);
        }
        claimed := claimed[u := i];
        docs[i] := docs[i].(uid := doc.marker);
      }
    }
  }

  lemma IdentityFromWinners(docs: seq<LocalDoc>, memos: Memos, idx: map<Path, Uid>, won: map<Uid, nat>, j: nat)
    requires Winners(docs, memos, won, |docs|) && DistinctPaths(docs) && j < |docs|
    ensures Identity(docs, memos, idx, j) ==
            if ByMarker(docs, won, j).Some? then docs[j].marker
            else if docs[j].path in idx && idx[docs[j].path] !in won then Some(idx[docs[j].path])
            else None
  {
    if docs[j].path in idx && idx[docs[j].path] in won {
      assert Claims(docs, memos, won[idx[docs[j].path]], idx[docs[j].path]);
    }
  }

  /** These uids are claimed by the path of one of the first `n` files. */
  ghost predicate PathClaims(docs: seq<LocalDoc>, memos: Memos, uids: set<Uid>, n: nat)
    requires n <= |docs|
  {
    forall u | u in uids :: u in memos && exists j | 0 <= j < n :: docs[j].path == memos[u].path
  }

  /** The next file's path claims a uid that none before it claimed. */
  lemma PathClaimsStep(docs: seq<LocalDoc>, memos: Memos, idx: map<Path, Uid>, uids: set<Uid>, i: nat)
    requires i < |docs| && IsPathIndex(idx, memos) && DistinctPaths(docs) && PathClaims(docs, memos, uids, i)
    ensures PathClaims(docs, memos, uids, i + 1)
    ensures docs[i].path in idx ==>
      idx[docs[i].path] !in uids && PathClaims(docs, memos, uids + {idx[docs[i].path]}, i + 1)
  {
    forall u | u in uids ensures exists j | 0 <= j < i + 1 :: docs[j].path == memos[u].path {
      var j :| 0 <= j < i && docs[j].path == memos[u].path;
      assert docs[j].path != docs[i].path;
    }
  }

  method ResolveIdentities(docs: array<LocalDoc>, memos: Memos, idx: map<Path, Uid>)
    requires IsPathIndex(idx, memos) && DistinctPaths(docs[..])
    requires forall i | 0 <= i < docs.Length :: docs[i].uid == None
    modifies docs
    ensures Resolved(old(docs[..]), docs[..], memos, idx)
  {
    ghost var ds := docs[..];
    var claimed := ResolveMarkers(docs, memos);
    ghost var won := claimed;
    for i := 0 to docs.Length
      invariant forall j | 0 <= j < i :: docs[j] == ds[j].(uid := Identity(ds, memos, idx, j))
      invariant forall j | i <= j < docs.Length :: docs[j] == ds[j].(uid := ByMarker(ds, won, j))
      invariant won.Keys <= claimed.Keys
      invariant PathClaims(ds, memos, claimed.Keys - won.Keys, i)
    {
      IdentityFromWinners(ds, memos, idx, won, i);
      PathClaimsStep(ds, memos, idx, claimed.Keys - won.Keys, i);
      var doc := docs[i];
      if doc.uid == None && doc.path in idx && idx[doc.path] !in claimed {
        ghost var before := claimed.Keys - won.Keys;
        claimed := claimed[idx[doc.path] := i];
        assert claimed.Keys - won.Keys == before + {idx[doc.path]};
        docs[i] := docs[i].(uid := Some(idx[doc.path]));
      }
    }
  }

  /** No uid is given to two files, and only tracked uids are given. */
  lemma IdentitiesAreUnique(docs: seq<LocalDoc>, memos: Memos, idx: map<Path, Uid>, i: nat, j: nat, u: Uid)
    requires IsPathIndex(idx, memos) && DistinctPaths(docs)
    requires i < |docs| && j < |docs|
    requires Identity(docs, memos, idx, i) == Some(u) && Identity(docs, memos, idx, j) == Some(u)
    ensures i == j && u in memos
  {
  }

  /** A tracked uid that some file's marker names goes to a file carrying it: the one at the
      recorded path when there is one, the first in order otherwise. */
  lemma MarkerDecides(docs: seq<LocalDoc>, memos: Memos, idx: map<Path, Uid>, u: Uid) returns (k: nat)
    requires IsPathIndex(idx, memos) && DistinctPaths(docs) && ClaimedByMarker(docs, memos, u)
    ensures k < |docs| && Claims(docs, memos, k, u) && Identity(docs, memos, idx, k) == Some(u)
    ensures forall j | 0 <= j < |docs| && AtHome(docs, memos, j, u) :: j == k
    ensures AtHome(docs, memos, k, u) || forall j | 0 <= j < k :: !Claims(docs, memos, j, u)
  {
    if j :| 0 <= j < |docs| && AtHome(docs, memos, j, u) {
      k := j;
    } else {
      k :| 0 <= k < |docs| && Claims(docs, memos, k, u);
      while exists j :: 0 <= j < k && Claims(docs, memos, j, u)
        invariant 0 <= k < |docs| && Claims(docs, memos, k, u)
        decreases k
      {
        var j :| 0 <= j < k && Claims(docs, memos, j, u);
        k := j;
      }
    }
  }

  /** The recorded path decides only for documents that no marker claims. */
  lemma PathIsTheFallback(docs: seq<LocalDoc>, memos: Memos, idx: map<Path, Uid>, i: nat, u: Uid)
    requires IsPathIndex(idx, memos) && DistinctPaths(docs) && i < |docs|
    requires Identity(docs, memos, idx, i) == Some(u) && docs[i].marker != Some(u)
    ensures docs[i].path == memos[u].path && forall j | 0 <= j < |docs| :: docs[j].marker != Some(u)
  {
    forall j | 0 <= j < |docs| ensures docs[j].marker != Some(u) {
      assert !Claims(docs, memos, j, u);
    }
  }
}
