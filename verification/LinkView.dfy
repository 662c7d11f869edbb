/** The folder tree as a value: for each folder path, its entries in order. */
module LinkView {
  import opened Lists
  import opened Options
  import opened Links

  datatype Entry = Folder(name: string) | Document(title: string, uid: string)

  type View = map<seq<string>, seq<Entry>>

  const ROOT: View := map[[] := []]

  /** The folder of that name under `p`, added behind the other entries when there is none. */
  function EnsureFolder(view: View, p: seq<string>, name: string): View
    requires p in view
  {
    if Folder(name) in view[p] then view else view[p := view[p] + [Folder(name)]][p + [name] := []]
  }

  /** The folders from `p` down along `segments`. */
  function EnsureAll(view: View, p: seq<string>, segments: seq<string>): View
    requires p in view && Tree(view)
    decreases segments
  {
    if segments == [] then view
    else
      EnsureKeepsTree(view, p, segments[0]);
      EnsureAll(EnsureFolder(view, p, segments[0]), p + [segments[0]], segments[1..])
  }

  /** A folder other than the root has its entry in the folder above. */
  predicate HasEntry(view: View, q: seq<string>) {
    q == [] || (q[..|q| - 1] in view && Folder(q[|q| - 1]) in view[q[..|q| - 1]])
  }

  /** The folder entries at `p` have their folders, and their names differ. */
  predicate HasFolders(view: View, p: seq<string>)
    requires p in view
  {
    && (forall e | e in view[p] && e.Folder? :: p + [e.name] in view)
    && UniqueFolders(view[p])
  }

  ghost predicate Tree(view: View) {
    && [] in view
    && (forall p {:trigger HasEntry(view, p)} | p in view :: HasEntry(view, p))
    && (forall p {:trigger HasFolders(view, p)} | p in view :: HasFolders(view, p))
  }

  /** No two folders of one name among the entries. */
  predicate UniqueFolders(entries: seq<Entry>) {
    forall i, j | 0 <= i < j < |entries| && entries[i].Folder? :: entries[i] != entries[j]
  }

  /** A folder has its entry in the folder above, and the entry its folder. */
  lemma ChildIsEntry(view: View, p: seq<string>, name: string)
    requires Tree(view) && p in view
    ensures p + [name] in view <==> Folder(name) in view[p]
  {
    var child := p + [name];
    assert child[..|child| - 1] == p && child[|child| - 1] == name;
    assert HasFolders(view, p);
    assert child in view ==> HasEntry(view, child);
  }

  /** Sibling folder names stay unique, and the folder is there. */
  lemma EnsureKeepsTree(view: View, p: seq<string>, name: string)
    requires Tree(view) && p in view
    ensures var after := EnsureFolder(view, p, name);
      Tree(after) && p + [name] in after && forall q | q in view :: q in after
  {
    var after, child := EnsureFolder(view, p, name), p + [name];
    assert HasFolders(view, p);
    ChildIsEntry(view, p, name);
    if Folder(name) !in view[p] {
      assert child[..|child| - 1] == p && child[|child| - 1] == name;
      forall q | q in after ensures HasEntry(after, q) {
        assert q != child ==> HasEntry(view, q);
        assert Folder(name) in after[p];
        assert forall e | e in view[p] :: e in after[p];
      }
      forall q | q in after ensures HasFolders(after, q) {
        assert q != child ==> HasFolders(view, q);
      }
    }
  }

  lemma EnsureAllStep(view: View, p: seq<string>, segments: seq<string>, i: nat)
    requires Tree(view) && p in view && i < |segments|
    ensures var after := EnsureFolder(view, p, segments[i]);
      && Tree(after) && p + [segments[i]] in after
      && p + segments[i..] == p + [segments[i]] + segments[i + 1..]
      && EnsureAll(view, p, segments[i..]) == EnsureAll(after, p + [segments[i]], segments[i + 1..])
  {
    RestOfRest(segments, i);
    EnsureKeepsTree(view, p, segments[i]);
  }

  /** The documents among entries, in order. */
  function Documents(entries: seq<Entry>): seq<Entry> {
    if entries == [] then []
    else (if entries[0].Document? then [entries[0]] else []) + Documents(entries[1..])
  }

  /** The documents of the list that stand in the folder, in order. */
  function Listed(docs: seq<Doc>, folder: seq<string>): seq<Entry> {
    if docs == [] then []
    else (if SplitPath(docs[0].folder) == folder then [Document(docs[0].title, docs[0].uid)] else [])
         + Listed(docs[1..], folder)
  }

  /** The tree holds exactly the documents of the list, each in its folder, in the order of the list. */
  ghost predicate Indexes(view: View, docs: seq<Doc>) {
    && Tree(view)
    && (forall p | p in view :: Documents(view[p]) == Listed(docs, p))
    && (forall d | d in docs :: SplitPath(d.folder) in view)
  }

  lemma {:induction false} DocumentsConcat(a: seq<Entry>, b: seq<Entry>)
    ensures Documents(a + b) == Documents(a) + Documents(b)
  {
    if a == [] {
      assert a + b == b;
    } else {
      DocumentsConcat(a[1..], b);
      FrontOfBoth(a, b);
    }
  }

  lemma {:induction false} ListedMore(docs: seq<Doc>, d: Doc, folder: seq<string>)
    ensures Listed(docs + [d], folder)
         == Listed(docs, folder) + if SplitPath(d.folder) == folder then [Document(d.title, d.uid)] else []
  {
    if docs == [] {
      assert docs + [d] == [d] && [d][1..] == [];
    } else {
      assert (docs + [d])[1..] == docs[1..] + [d];
      ListedMore(docs[1..], d, folder);
    }
  }

  lemma {:induction false} ListedNowhere(docs: seq<Doc>, folder: seq<string>)
    requires forall d | d in docs :: SplitPath(d.folder) != folder
    ensures Listed(docs, folder) == []
  {
    if docs != [] {
      assert docs[0] in docs && forall d | d in docs[1..] :: d in docs;
      ListedNowhere(docs[1..], folder);
    }
  }

  /** A folder added without documents leaves the index as it was. */
  lemma EnsureKeepsIndex(view: View, p: seq<string>, name: string, docs: seq<Doc>)
    requires Indexes(view, docs) && p in view
    ensures Indexes(EnsureFolder(view, p, name), docs) && p + [name] in EnsureFolder(view, p, name)
  {
    EnsureKeepsTree(view, p, name);
    if Folder(name) !in view[p] {
      DocumentsConcat(view[p], [Folder(name)]);
      ChildIsEntry(view, p, name);
      forall d | d in docs ensures SplitPath(d.folder) != p + [name] {}
      ListedNowhere(docs, p + [name]);
      assert [Folder(name)][1..] == [] && Documents([Folder(name)]) == [];
    }
  }

  lemma {:induction false} EnsureAllKeepsIndex(view: View, p: seq<string>, segments: seq<string>, docs: seq<Doc>)
    requires Indexes(view, docs) && p in view
    ensures Indexes(EnsureAll(view, p, segments), docs) && p + segments in EnsureAll(view, p, segments)
    decreases segments
  {
    if segments == [] {
      assert p + segments == p;
    } else {
      EnsureKeepsIndex(view, p, segments[0], docs);
      EnsureAllKeepsIndex(EnsureFolder(view, p, segments[0]), p + [segments[0]], segments[1..], docs);
      Assoc(p, [segments[0]], segments[1..]);
      assert [segments[0]] + segments[1..] == segments;
    }
  }

  /** The tree with one document more. */
  function AddDoc(view: View, d: Doc): View
    requires Tree(view)
  {
    var segments := SplitPath(d.folder);
    var made := EnsureAll(view, [], segments);
    if segments in made then made[segments := made[segments] + [Document(d.title, d.uid)]] else made
  }

  lemma AddDocIndexes(view: View, docs: seq<Doc>, d: Doc)
    requires Indexes(view, docs)
    ensures Indexes(AddDoc(view, d), docs + [d])
  {
    var segments := SplitPath(d.folder);
    EnsureAllKeepsIndex(view, [], segments, docs);
    assert [] + segments == segments;
    AppendIndexes(EnsureAll(view, [], segments), docs, d);
  }

  lemma AppendIndexes(made: View, docs: seq<Doc>, d: Doc)
    requires Indexes(made, docs) && SplitPath(d.folder) in made
    ensures var segments := SplitPath(d.folder);
      Indexes(made[segments := made[segments] + [Document(d.title, d.uid)]], docs + [d])
  {
    AppendKeepsTree(made, SplitPath(d.folder), Document(d.title, d.uid));
    AppendLists(made, docs, d);
  }

  lemma AppendKeepsTree(made: View, at: seq<string>, entry: Entry)
    requires Tree(made) && at in made && entry.Document?
    ensures Tree(made[at := made[at] + [entry]])
  {
    var after := made[at := made[at] + [entry]];
    forall p | p in after ensures HasEntry(after, p) {
      assert HasEntry(made, p);
    }
    forall p | p in after ensures HasFolders(after, p) {
      assert HasFolders(made, p);
    }
  }

  lemma AppendLists(made: View, docs: seq<Doc>, d: Doc)
    requires Indexes(made, docs) && SplitPath(d.folder) in made
    ensures var segments := SplitPath(d.folder);
      forall p | p in made ::
        Documents(made[segments := made[segments] + [Document(d.title, d.uid)]][p]) == Listed(docs + [d], p)
  {
    var segments, entry := SplitPath(d.folder), Document(d.title, d.uid);
    DocumentsConcat(made[segments], [entry]);
    assert [entry][1..] == [] && Documents([entry]) == [entry];
    forall p | p in made ensures Documents(made[segments := made[segments] + [entry]][p]) == Listed(docs + [d], p) {
      ListedMore(docs, d, p);
    }
  }

  lemma RootIndexes()
    ensures Indexes(ROOT, [])
  {
    assert HasEntry(ROOT, []) && HasFolders(ROOT, []);
  }

  /** The folder that `segments` lead to from `p`, if the tree has it. */
  function Descend(view: View, p: seq<string>, segments: seq<string>): Option<seq<string>>
    requires p in view && Tree(view)
    decreases segments
  {
    if segments == [] then Some(p)
    else
      ChildIsEntry(view, p, segments[0]);
      if Folder(segments[0]) in view[p] then Descend(view, p + [segments[0]], segments[1..]) else None
  }

  /** Descending finds exactly the folders of the tree. */
  lemma {:induction false} DescendFinds(view: View, p: seq<string>, segments: seq<string>)
    requires p in view && Tree(view)
    ensures Descend(view, p, segments) == if p + segments in view then Some(p + segments) else None
    decreases segments
  {
    if segments == [] {
      assert p + segments == p;
    } else {
      var child := p + [segments[0]];
      ChildIsEntry(view, p, segments[0]);
      assert child + segments[1..] == p + segments;
      if child in view {
        DescendFinds(view, child, segments[1..]);
      } else {
        NothingBelow(view, child, segments[1..]);
      }
    }
  }

  /** Below a folder that is not there, nothing is. */
  lemma {:induction false} NothingBelow(view: View, p: seq<string>, segments: seq<string>)
    requires Tree(view) && p !in view
    ensures p + segments !in view
    decreases segments
  {
    if segments == [] {
      assert p + segments == p;
    } else {
      var n := |segments| - 1;
      var q := p + segments;
      NothingBelow(view, p, segments[..n]);
      assert q[..|q| - 1] == p + segments[..n];
      assert q in view ==> HasEntry(view, q);
    }
  }

  /** The first document among entries with this title. */
  function FirstTitled(lower: string -> string, entries: seq<Entry>, title: string): Option<string> {
    if entries == [] then None
    else if entries[0].Document? && NormalizedTitle(lower, entries[0].title) == NormalizedTitle(lower, title)
    then Some(entries[0].uid)
    else FirstTitled(lower, entries[1..], title)
  }

  /** What the tree gives for folders and a title. */
  function Find(lower: string -> string, view: View, folder: seq<string>, title: string): Option<string>
    requires Tree(view)
  {
    var p := Descend(view, [], folder);
    if p.Some? && p.value in view then FirstTitled(lower, view[p.value], title) else None
  }

  function UidAt(docs: seq<Doc>, i: Option<nat>): Option<string>
    requires i.Some? ==> i.value < |docs|
  {
    if i.None? then None else Some(docs[i.value].uid)
  }

  lemma {:induction false} TitleAmongDocuments(lower: string -> string, entries: seq<Entry>, title: string)
    ensures FirstTitled(lower, Documents(entries), title) == FirstTitled(lower, entries, title)
  {
    if entries != [] {
      TitleAmongDocuments(lower, entries[1..], title);
      var head, rest := entries[0], Documents(entries[1..]);
      assert ([head] + rest)[1..] == rest;
      assert [] + rest == rest;
    }
  }

  lemma {:induction false} TitleInList(lower: string -> string, docs: seq<Doc>, folder: seq<string>, title: string)
    ensures FirstTitled(lower, Listed(docs, folder), title) == UidAt(docs, FirstNamed(lower, docs, folder, title))
  {
    if docs != [] {
      TitleInList(lower, docs[1..], folder, title);
      var d, rest := docs[0], Listed(docs[1..], folder);
      assert ([Document(d.title, d.uid)] + rest)[1..] == rest;
      assert [] + rest == rest;
    }
  }

  /** The tree agrees with the list: it gives the first document of the list with these folders and
      this title, or nothing when there is none. */
  lemma TreeAgreesWithList(lower: string -> string, view: View, docs: seq<Doc>, folder: seq<string>, title: string)
    requires Indexes(view, docs)
    ensures Find(lower, view, folder, title) == UidAt(docs, FirstNamed(lower, docs, folder, title))
  {
    DescendFinds(view, [], folder);
    assert [] + folder == folder;
    if folder in view {
      TitleAmongDocuments(lower, view[folder], title);
    } else {
      forall d | d in docs ensures SplitPath(d.folder) != folder {}
      ListedNowhere(docs, folder);
    }
    TitleInList(lower, docs, folder, title);
  }
}
