/** Renaming a folder: the documents under it move, and links to them are rewritten. */
module LinkMoves {
  import opened Lists
  import opened Options
  import opened Percent
  import opened Strings
  import opened Links
  import opened LinkRepair

  /** A folder path moved from under one folder to under another, as text. */
  function MovedFolderPath(path: string, from: string, to: string): string {
    if path == from then to
    else if from + "/" <= path then to + path[|from|..]
    else path
  }

  /** The same on segments. */
  function Move(segments: seq<string>, from: seq<string>, to: seq<string>): seq<string> {
    if from <= segments then to + segments[|from|..] else segments
  }

  /** A folder path as the store keeps it: its segments joined by single slashes. */
  predicate Tidy(path: string) { path == Join(SplitPath(path), '/') }

  lemma {:induction false} JoinConcat(a: seq<string>, b: seq<string>)
    requires a != [] && b != []
    ensures Join(a + b, '/') == Join(a, '/') + "/" + Join(b, '/')
  {
    FrontOfBoth(a, b);
    if |a| > 1 {
      JoinConcat(a[1..], b);
    } else {
      assert a[1..] + b == b;
    }
  }

  /** On tidy paths, moving the text is moving the segments. */
  lemma MovedTextIsMoved(path: string, from: string, to: string)
    requires Tidy(path) && Tidy(from) && SplitPath(from) != []
    ensures SplitPath(MovedFolderPath(path, from, to)) == Move(SplitPath(path), SplitPath(from), SplitPath(to))
  {
    var ps, os := SplitPath(path), SplitPath(from);
    if os <= ps {
      var tail := ps[|os|..];
      assert ps == os + tail;
      if tail == [] { assert ps == os; } else { JoinConcat(os, tail); }
    }
    if path == from {
      assert os[|os|..] == [] && SplitPath(to) + [] == SplitPath(to);
    } else if from + "/" <= path {
      var rest := path[|from| + 1..];
      assert path == from + "/" + rest && to + path[|from|..] == to + "/" + rest;
      SplitConcat(from, rest);
      SplitConcat(to, rest);
      assert (os + SplitPath(rest))[|os|..] == SplitPath(rest);
    }
  }

  function MoveDocs(docs: seq<Doc>, from: string, to: string): (r: seq<Doc>)
    ensures |r| == |docs|
    ensures forall k | 0 <= k < |docs| :: r[k] == docs[k].(folder := MovedFolderPath(docs[k].folder, from, to))
  {
    if docs == [] then []
    else [docs[0].(folder := MovedFolderPath(docs[0].folder, from, to))] + MoveDocs(docs[1..], from, to)
  }

  /** The documents after a move: each in its list place, its folders moved. */
  ghost predicate Moved(docs: seq<Doc>, after: seq<Doc>, from: seq<string>, to: seq<string>) {
    |after| == |docs| && forall k | 0 <= k < |docs| ::
      && after[k].uid == docs[k].uid && after[k].title == docs[k].title
      && SplitPath(after[k].folder) == Move(SplitPath(docs[k].folder), from, to)
  }

  lemma MoveDocsMoves(docs: seq<Doc>, from: string, to: string)
    requires Tidy(from) && SplitPath(from) != [] && forall d | d in docs :: Tidy(d.folder)
    ensures Moved(docs, MoveDocs(docs, from, to), SplitPath(from), SplitPath(to))
  {
    forall k | 0 <= k < |docs|
      ensures SplitPath(MoveDocs(docs, from, to)[k].folder)
           == Move(SplitPath(docs[k].folder), SplitPath(from), SplitPath(to))
    {
      MovedTextIsMoved(docs[k].folder, from, to);
    }
  }

  /** A document that the move puts where the link leads, ahead of all that were there. */
  ghost predicate Captures(lower: string -> string, docs: seq<Doc>, from: seq<string>, to: seq<string>,
                           folder: seq<string>, title: string, j: nat)
    requires j < |docs|
  {
    && SplitPath(docs[j].folder) != folder
    && Move(SplitPath(docs[j].folder), from, to) == Move(folder, from, to)
    && NormalizedTitle(lower, docs[j].title) == NormalizedTitle(lower, title)
    && forall k | 0 <= k < j :: !Named(lower, docs[k], folder, title)
  }

  ghost predicate Captured(lower: string -> string, docs: seq<Doc>, from: seq<string>, to: seq<string>,
                           folder: seq<string>, title: string)
  {
    exists j :: 0 <= j < |docs| && Captures(lower, docs, from, to, folder, title, j)
  }

  lemma NamedMoves(lower: string -> string, docs: seq<Doc>, after: seq<Doc>, from: seq<string>, to: seq<string>,
                   folder: seq<string>, title: string, k: nat)
    requires Moved(docs, after, from, to) && k < |docs|
    ensures Named(lower, docs[k], folder, title)
      <==> Named(lower, after[k], Move(folder, from, to), title) && SplitPath(docs[k].folder) == folder
  {
  }

  lemma FirstAtMost(lower: string -> string, docs: seq<Doc>, folder: seq<string>, title: string, j: nat)
    requires j < |docs| && Named(lower, docs[j], folder, title)
    ensures FirstNamed(lower, docs, folder, title).Some? && FirstNamed(lower, docs, folder, title).value <= j
  {
  }

  lemma FirstBeyond(lower: string -> string, docs: seq<Doc>, folder: seq<string>, title: string, j: nat)
    requires j < |docs| && forall k | 0 <= k <= j :: !Named(lower, docs[k], folder, title)
    ensures FirstNamed(lower, docs, folder, title).Some? ==> FirstNamed(lower, docs, folder, title).value > j
  {
  }

  lemma CaptureChanges(lower: string -> string, docs: seq<Doc>, after: seq<Doc>, from: seq<string>, to: seq<string>,
                       folder: seq<string>, title: string, j: nat)
    requires Moved(docs, after, from, to) && j < |docs| && Captures(lower, docs, from, to, folder, title, j)
    ensures FirstNamed(lower, after, Move(folder, from, to), title) != FirstNamed(lower, docs, folder, title)
  {
    FirstAtMost(lower, after, Move(folder, from, to), title, j);
    FirstBeyond(lower, docs, folder, title, j);
  }

  /** When the first match changes, there is one afterwards. */
  lemma ChangedTo(lower: string -> string, docs: seq<Doc>, after: seq<Doc>, from: seq<string>, to: seq<string>,
                  folder: seq<string>, title: string) returns (j: nat)
    requires Moved(docs, after, from, to)
    requires FirstNamed(lower, after, Move(folder, from, to), title) != FirstNamed(lower, docs, folder, title)
    ensures FirstNamed(lower, after, Move(folder, from, to), title) == Some(j)
  {
    var before, now := FirstNamed(lower, docs, folder, title), FirstNamed(lower, after, Move(folder, from, to), title);
    if before.Some? { NamedMoves(lower, docs, after, from, to, folder, title, before.value); }
    j := now.value;
  }

  /** Nothing in front of that match was one before. */
  lemma NoneInFront(lower: string -> string, docs: seq<Doc>, after: seq<Doc>, from: seq<string>, to: seq<string>,
                    folder: seq<string>, title: string, j: nat)
    requires Moved(docs, after, from, to) && FirstNamed(lower, after, Move(folder, from, to), title) == Some(j)
    ensures forall k | 0 <= k < j :: !Named(lower, docs[k], folder, title)
  {
    forall k | 0 <= k < j ensures !Named(lower, docs[k], folder, title) {
      NamedMoves(lower, docs, after, from, to, folder, title, k);
    }
  }

  lemma ChangeIsCapture(lower: string -> string, docs: seq<Doc>, after: seq<Doc>, from: seq<string>, to: seq<string>,
                        folder: seq<string>, title: string)
    requires Moved(docs, after, from, to)
    requires FirstNamed(lower, after, Move(folder, from, to), title) != FirstNamed(lower, docs, folder, title)
    ensures Captured(lower, docs, from, to, folder, title)
  {
    var j := ChangedTo(lower, docs, after, from, to, folder, title);
    NoneInFront(lower, docs, after, from, to, folder, title, j);
    NamedMoves(lower, docs, after, from, to, folder, title, j);
    FirstIs(lower, docs, folder, title, j);
    assert Captures(lower, docs, from, to, folder, title, j);
  }

  /** A place moved with its documents holds the same document first, exactly when none captures it. */
  lemma PlaceMoves(lower: string -> string, docs: seq<Doc>, after: seq<Doc>, from: seq<string>, to: seq<string>,
                   folder: seq<string>, title: string)
    requires Moved(docs, after, from, to)
    ensures FirstNamed(lower, after, Move(folder, from, to), title) == FirstNamed(lower, docs, folder, title)
      <==> !Captured(lower, docs, from, to, folder, title)
  {
    if FirstNamed(lower, after, Move(folder, from, to), title) != FirstNamed(lower, docs, folder, title) {
      ChangeIsCapture(lower, docs, after, from, to, folder, title);
    } else {
      forall j | 0 <= j < |docs| ensures !Captures(lower, docs, from, to, folder, title, j) {
        if Captures(lower, docs, from, to, folder, title, j) {
          CaptureChanges(lower, docs, after, from, to, folder, title, j);
        }
      }
    }
  }

  /** A link as it is after the repair. */
  function Repaired(href: string, from: string, to: string): string {
    var r := RewritePathPrefix(href, from, to);
    if r.Some? then r.value else href
  }

  /** A root-relative link with no query and no fragment, written or encoded. */
  predicate QueryFree(href: string) {
    && href != "" && href[0] == '/'
    && (forall c | c in href :: !Cuts(c))
    && (forall c | c in Decoded(href) :: !Cuts(c))
  }

  /** A path of folders and a title lies under a folder when its folders do. */
  lemma UnderIsFolder(folder: seq<string>, title: string, from: seq<string>, to: seq<string>)
    ensures from <= folder <==> |folder + [title]| > |from| && from <= folder + [title]
    ensures from <= folder ==> to + (folder + [title])[|from|..] == Move(folder, from, to) + [title]
  {
    if |folder + [title]| > |from| && from <= folder + [title] {
      assert from == (folder + [title])[..|from|] == folder[..|from|];
    }
  }

  /** The repaired link names the moved path. */
  lemma RepairedNames(href: string, from: string, to: string, folder: seq<string>, title: string)
    requires QueryFree(href) && RootSegments(href) == folder + [title]
    requires forall s | s in SplitPath(to) :: Segment(s)
    ensures RootSegments(Repaired(href, from, to)) == Move(folder, SplitPath(from), SplitPath(to)) + [title]
  {
    QueryFreePath(href);
    UnderIsFolder(folder, title, SplitPath(from), SplitPath(to));
    if SplitPath(from) <= folder {
      var moved := Move(folder, SplitPath(from), SplitPath(to)) + [title];
      assert forall s | s in folder[|SplitPath(from)|..] :: s in folder + [title];
      WrittenPathReads(moved, "");
      assert EscapePathSegments(moved) + "" == EscapePathSegments(moved);
    }
  }

  lemma QueryFreePath(href: string)
    requires QueryFree(href)
    ensures Path(href) == href && Suffix(href) == "" && Path(Decoded(href)) == Decoded(href)
    ensures Decoded(href) != "" && Decoded(href)[0] == '/'
    ensures forall s | s in RootSegments(href) :: Segment(s)
  {
    PathBehind(href, "");
    assert href + "" == href;
    PathBehind(Decoded(href), "");
    assert Decoded(href) + "" == Decoded(href);
    SplitGivesSegments(Decoded(href));
  }

  /** After a folder is renamed, every query-free link leads through its repaired form to the document
      it led to before, exactly when no document from elsewhere captures its place. */
  lemma RenameKeepsTarget(lower: string -> string, docs: seq<Doc>, from: string, to: string, href: string,
                          folder: seq<string>, title: string)
    requires Tidy(from) && SplitPath(from) != [] && forall d | d in docs :: Tidy(d.folder)
    requires forall s | s in SplitPath(to) :: Segment(s)
    requires QueryFree(href) && RootSegments(href) == folder + [title]
    ensures (ResolveRoot(lower, MoveDocs(docs, from, to), Repaired(href, from, to)) == ResolveRoot(lower, docs, href))
      <==> !Captured(lower, docs, SplitPath(from), SplitPath(to), folder, StripExt(title))
  {
    var after, os, ns := MoveDocs(docs, from, to), SplitPath(from), SplitPath(to);
    MoveDocsMoves(docs, from, to);
    RepairedNames(href, from, to, folder, title);
    TargetInFolder(lower, docs, folder, title);
    TargetInFolder(lower, after, Move(folder, os, ns), title);
    PlaceMoves(lower, docs, after, os, ns, folder, StripExt(title));
  }

  lemma OneFolder(name: string)
    requires Segment(name)
    ensures SplitPath(name) == [name] && Tidy(name)
  {
    JoinedSegments([name]);
  }

  lemma MoveOne(from: string, to: string)
    requires from != to
    ensures Move([to], [from], [to]) == [to] && Move([from], [from], [to]) == [to]
  {
    assert [from][1..] == [] && [to] + [] == [to];
    assert [from][0] != [to][0];
  }

  /** A link that is captured: it leads to the second document, in one folder; there is a document of the same
      title in another; when the first folder is renamed to the other, the repaired link leads elsewhere. */
  lemma CapturedLink(lower: string -> string, from: string, to: string, title: string, href: string)
    requires Segment(from) && Segment(to) && from != to && '.' !in title
    requires QueryFree(href) && RootSegments(href) == [from] + [title]
    ensures var docs := [Doc("v", title, to), Doc("u", title, from)];
      && ResolveRoot(lower, docs, href) == Some(1)
      && ResolveRoot(lower, MoveDocs(docs, from, to), Repaired(href, from, to)) != Some(1)
  {
    var docs := [Doc("v", title, to), Doc("u", title, from)];
    OneFolder(from);
    OneFolder(to);
    NothingToStrip(title, EXTENSIONS);
    MoveOne(from, to);
    assert Captures(lower, docs, [from], [to], [from], title, 0);
    RenameKeepsTarget(lower, docs, from, to, href, [from], title);
    LeadsToSecond(lower, docs, [from], title);
    TargetInFolder(lower, docs, [from], title);
  }

  lemma LeadsToSecond(lower: string -> string, docs: seq<Doc>, folder: seq<string>, title: string)
    requires |docs| == 2 && !Named(lower, docs[0], folder, title) && Named(lower, docs[1], folder, title)
    ensures FirstNamed(lower, docs, folder, title) == Some(1)
  {
    FirstAtMost(lower, docs, folder, title, 1);
    FirstBeyond(lower, docs, folder, title, 0);
  }

  /** Such a link is `/old/t`, when the folder `old` is renamed to `new`. */
  lemma CapturedExample(lower: string -> string)
    ensures var docs := [Doc("v", "t", "new"), Doc("u", "t", "old")];
      && ResolveRoot(lower, docs, "/old/t") == Some(1)
      && ResolveRoot(lower, MoveDocs(docs, "old", "new"), Repaired("/old/t", "old", "new")) != Some(1)
  {
    ExampleNames();
    ExampleFolders();
    CapturedLink(lower, "old", "new", "t", "/old/t");
  }

  lemma ExampleFolders()
    ensures Segment("old") && Segment("new") && "old" != "new" && '.' !in "t"
  {
    assert "old"[0] == 'o' && "new"[0] == 'n';
  }

  lemma ExampleNames()
    ensures QueryFree("/old/t") && RootSegments("/old/t") == ["old"] + ["t"]
  {
    PlainDecodes("/old/t");
    PathBehind("/old/t", "");
    assert "/old/t" + "" == "/old/t";
    ExampleSegments();
  }

  lemma ExampleSegments()
    ensures SplitPath("/old/t") == ["old"] + ["t"]
  {
    JoinedSegments(["old", "t"]);
    assert ["old", "t"][1..] == ["t"] && Join(["t"], '/') == "t";
    assert "/" + Join(["old", "t"], '/') == "/old/t";
  }

  /** A link that led to a document leads to it still, when nothing from elsewhere lay under the new folder. */
  lemma RenameIntoFreeFolder(lower: string -> string, docs: seq<Doc>, from: string, to: string, href: string)
    requires Tidy(from) && SplitPath(from) != [] && forall d | d in docs :: Tidy(d.folder)
    requires forall s | s in SplitPath(to) :: Segment(s)
    requires QueryFree(href) && ResolveRoot(lower, docs, href).Some?
    requires forall d | d in docs :: SplitPath(to) <= SplitPath(d.folder) ==> SplitPath(from) <= SplitPath(d.folder)
    ensures ResolveRoot(lower, MoveDocs(docs, from, to), Repaired(href, from, to)) == ResolveRoot(lower, docs, href)
  {
    var segments := RootSegments(href);
    var n := |segments| - 1;
    var folder, title, i := segments[..n], segments[n], ResolveRoot(lower, docs, href).value;
    assert segments == folder + [title];
    RenameKeepsTarget(lower, docs, from, to, href, folder, title);
    assert docs[i] in docs && SplitPath(docs[i].folder) == folder;
    NobodyCaptures(lower, docs, SplitPath(from), SplitPath(to), folder, StripExt(title));
  }

  /** A place a document stands at is captured by none, when nothing from elsewhere lies under the new folder. */
  lemma NobodyCaptures(lower: string -> string, docs: seq<Doc>, from: seq<string>, to: seq<string>,
                       folder: seq<string>, title: string)
    requires exists d :: d in docs && SplitPath(d.folder) == folder
    requires forall d | d in docs :: to <= SplitPath(d.folder) ==> from <= SplitPath(d.folder)
    ensures !Captured(lower, docs, from, to, folder, title)
  {
    forall j | 0 <= j < |docs| ensures !Captures(lower, docs, from, to, folder, title, j) {
      var other := SplitPath(docs[j].folder);
      assert docs[j] in docs;
      if Move(other, from, to) == Move(folder, from, to) && from <= other && from <= folder {
        MovedApart(other, folder, from, to);
      }
    }
  }

  lemma MovedApart(a: seq<string>, b: seq<string>, from: seq<string>, to: seq<string>)
    requires from <= a && from <= b && Move(a, from, to) == Move(b, from, to)
    ensures a == b
  {
    assert a[|from|..] == Move(a, from, to)[|to|..] && b[|from|..] == Move(b, from, to)[|to|..];
    assert a == from + a[|from|..] && b == from + b[|from|..];
  }
}
