/** The folder tree as linked nodes, built from a list of documents and searched for links. */
module LinkTree {
  import opened Lists
  import opened Options
  import opened Percent
  import S = Strings
  import opened Links
  import opened LinkView

  class TreeNode {
    var name: string
    var isFolder: bool
    var uid: string
    var children: seq<TreeNode>
    /** Where a folder stands. */
    ghost var path: seq<string>

    constructor (name: string, isFolder: bool, uid: string, ghost path: seq<string>)
      ensures this.name == name && this.isFolder == isFolder && this.uid == uid && children == [] && this.path == path
    {
      this.path := path;
      this.name := name;
      this.isFolder := isFolder;
      this.uid := uid;
      children := [];
    }
  }

  type Nodes = map<seq<string>, TreeNode>

  /** The node `c` under the folder `p` is the entry `e`. */
  ghost predicate ChildMirrors(folders: Nodes, leaves: set<TreeNode>, p: seq<string>, c: TreeNode, e: Entry)
    reads folders.Values, leaves
  {
    match e
    case Folder(name) => p + [name] in folders && folders[p + [name]] == c && c.isFolder && c.name == name
    case Document(title, uid) => c in leaves && !c.isFolder && c.name == title && c.uid == uid
  }

  ghost predicate NodeMirrors(folders: Nodes, leaves: set<TreeNode>, view: View, p: seq<string>)
    requires p in folders && p in view
    reads folders.Values, leaves
  {
    && folders[p].isFolder && folders[p].path == p && |folders[p].children| == |view[p]|
    && forall k | 0 <= k < |view[p]| :: ChildMirrors(folders, leaves, p, folders[p].children[k], view[p][k])
  }

  /** The nodes are the tree: each folder's children are its entries, in order, and no node is in two places. */
  ghost predicate Mirrors(folders: Nodes, leaves: set<TreeNode>, view: View)
    reads folders.Values, leaves
  {
    && folders.Keys == view.Keys
    && (forall p {:trigger NodeMirrors(folders, leaves, view, p)} | p in view :: NodeMirrors(folders, leaves, view, p))
  }

  /** The folder of that name under `parent`: the one there is, or a new one behind the other children. */
  method EnsureFolder(parent: TreeNode, name: string, ghost folders: Nodes, ghost leaves: set<TreeNode>,
                      ghost view: View, ghost p: seq<string>)
    returns (folder: TreeNode, ghost nodes: Nodes)
    requires Mirrors(folders, leaves, view) && Tree(view) && p in view && folders[p] == parent
    modifies parent`children
    ensures Mirrors(nodes, leaves, LinkView.EnsureFolder(view, p, name))
    ensures p + [name] in nodes && nodes[p + [name]] == folder
    ensures nodes == folders || (fresh(folder) && nodes == folders[p + [name] := folder])
  {
    assert NodeMirrors(folders, leaves, view, p);
    ghost var children := parent.children;
    for i := 0 to |parent.children|
      invariant parent.children == children
      invariant forall k | 0 <= k < i :: view[p][k] != Folder(name)
    {
      var child := parent.children[i];
      assert ChildMirrors(folders, leaves, p, child, view[p][i]);
      if child.isFolder && child.name == name {
        assert view[p][i] == Folder(name);
        return child, folders;
      }
    }
    folder, nodes := AddFolder(parent, name, folders, leaves, view, p);
  }

  method AddFolder(parent: TreeNode, name: string, ghost folders: Nodes, ghost leaves: set<TreeNode>,
                   ghost view: View, ghost p: seq<string>)
    returns (folder: TreeNode, ghost nodes: Nodes)
    requires Mirrors(folders, leaves, view) && Tree(view) && p in view && folders[p] == parent
    requires Folder(name) !in view[p]
    modifies parent`children
    ensures Mirrors(nodes, leaves, LinkView.EnsureFolder(view, p, name))
    ensures fresh(folder) && nodes == folders[p + [name] := folder]
  {
    ChildIsEntry(view, p, name);
    folder := new TreeNode(name, true, "", p + [name]);
    parent.children := parent.children + [folder];
    nodes := folders[p + [name] := folder];
    ghost var after := LinkView.EnsureFolder(view, p, name);
    assert old(NodeMirrors(folders, leaves, view, p));
    forall q | q in after
      ensures NodeMirrors(nodes, leaves, after, q)
    {
      if q != p + [name] {
        assert old(NodeMirrors(folders, leaves, view, q));
        forall k | 0 <= k < |view[q]|
          ensures ChildMirrors(nodes, leaves, q, nodes[q].children[k], after[q][k])
        {
          assert old(ChildMirrors(folders, leaves, q, folders[q].children[k], view[q][k]));
        }
      }
    }
  }

  /** Puts a document behind the other children of its folder. */
  method AddDocument(parent: TreeNode, doc: Doc, ghost folders: Nodes, ghost leaves: set<TreeNode>,
                     ghost view: View, ghost p: seq<string>)
    returns (node: TreeNode)
    requires Mirrors(folders, leaves, view) && p in view && folders[p] == parent
    modifies parent`children
    ensures fresh(node)
    ensures Mirrors(folders, leaves + {node}, view[p := view[p] + [Document(doc.title, doc.uid)]])
  {
    node := new TreeNode(doc.title, false, doc.uid, p);
    parent.children := parent.children + [node];
    ghost var after := view[p := view[p] + [Document(doc.title, doc.uid)]];
    assert old(NodeMirrors(folders, leaves, view, p));
    forall q | q in after
      ensures NodeMirrors(folders, leaves + {node}, after, q)
    {
      assert old(NodeMirrors(folders, leaves, view, q));
      forall k | 0 <= k < |view[q]|
        ensures ChildMirrors(folders, leaves + {node}, q, folders[q].children[k], after[q][k])
      {
        assert old(ChildMirrors(folders, leaves, q, folders[q].children[k], view[q][k]));
      }
    }
  }

  method SplitPathSegments(path: string) returns (segments: seq<string>)
    ensures segments == SplitPath(path)
  {
    var pieces := S.Split(path, '/');
    segments := [];
    assert pieces[0..] == pieces && [] + S.NonEmpty(pieces) == S.NonEmpty(pieces);
    for i := 0 to |pieces|
      invariant segments + S.NonEmpty(pieces[i..]) == S.NonEmpty(pieces)
    {
      RestOfRest(pieces, i);
      if pieces[i] != "" {
        assert segments + ([pieces[i]] + S.NonEmpty(pieces[i + 1..]))
            == segments + [pieces[i]] + S.NonEmpty(pieces[i + 1..]);
        segments := segments + [pieces[i]];
      }
    }
    assert segments + [] == segments;
  }

  ghost predicate Owns(owned: set<TreeNode>, folders: Nodes) {
    forall p | p in folders :: folders[p] in owned
  }

  /** One folder further down a path, with the index kept. */
  method EnsureStep(parent: TreeNode, name: string, ghost folders: Nodes, ghost leaves: set<TreeNode>,
                    ghost view: View, ghost p: seq<string>, ghost docs: seq<Doc>, ghost owned: set<TreeNode>)
    returns (folder: TreeNode, ghost nodes: Nodes, ghost grown: set<TreeNode>)
    requires Mirrors(folders, leaves, view) && Indexes(view, docs) && p in view && folders[p] == parent
    requires Owns(owned, folders)
    modifies parent`children
    ensures var after := LinkView.EnsureFolder(view, p, name);
      Mirrors(nodes, leaves, after) && Indexes(after, docs) && p + [name] in after
    ensures p + [name] in nodes && nodes[p + [name]] == folder
    ensures [] in nodes && [] in folders && nodes[[]] == folders[[]]
    ensures Owns(grown, nodes) && owned <= grown && fresh(grown - owned)
  {
    EnsureKeepsIndex(view, p, name, docs);
    folder, nodes := EnsureFolder(parent, name, folders, leaves, view, p);
    grown := owned + {folder};
  }

  /** The folders from the root down along a path. */
  method EnsurePath(root: TreeNode, segments: seq<string>, ghost folders: Nodes, ghost leaves: set<TreeNode>,
                    ghost view: View, ghost docs: seq<Doc>, ghost owned: set<TreeNode>)
    returns (folder: TreeNode, ghost nodes: Nodes, ghost grown: set<TreeNode>)
    requires Mirrors(folders, leaves, view) && Indexes(view, docs) && [] in folders && folders[[]] == root
    requires Owns(owned, folders)
    modifies owned`children
    ensures Mirrors(nodes, leaves, EnsureAll(view, [], segments))
    ensures segments in nodes && nodes[segments] == folder && [] in nodes && nodes[[]] == root
    ensures Owns(grown, nodes) && owned <= grown && fresh(grown - owned)
  {
    folder, nodes, grown := root, folders, owned;
    ghost var made, done := view, [];
    assert segments[0..] == segments && [] + segments == segments;
    for i := 0 to |segments|
      invariant done + segments[i..] == segments && Indexes(made, docs) && done in made
      invariant Mirrors(nodes, leaves, made) && nodes[done] == folder && [] in nodes && nodes[[]] == root
      invariant EnsureAll(made, done, segments[i..]) == EnsureAll(view, [], segments)
      invariant Owns(grown, nodes) && owned <= grown && fresh(grown - owned)
    {
      assert folder in grown;
      EnsureAllStep(made, done, segments, i);
      folder, nodes, grown := EnsureStep(folder, segments[i], nodes, leaves, made, done, docs, grown);
      made := LinkView.EnsureFolder(made, done, segments[i]);
      done := done + [segments[i]];
    }
    assert done + [] == done;
    assert EnsureAll(made, done, segments[|segments|..]) == made;
  }

  /** Puts one document in its place, making the folders on the way. */
  method PlaceDocument(root: TreeNode, doc: Doc, ghost folders: Nodes, ghost leaves: set<TreeNode>,
                       ghost view: View, ghost docs: seq<Doc>, ghost owned: set<TreeNode>)
    returns (ghost nodes: Nodes, ghost more: set<TreeNode>, ghost grown: set<TreeNode>)
    requires Mirrors(folders, leaves, view) && Indexes(view, docs) && [] in folders && folders[[]] == root
    requires Owns(owned, folders)
    modifies owned`children
    ensures Mirrors(nodes, more, AddDoc(view, doc)) && Indexes(AddDoc(view, doc), docs + [doc])
    ensures [] in nodes && nodes[[]] == root
    ensures Owns(grown, nodes) && owned <= grown && fresh(grown - owned)
  {
    var segments := SplitPathSegments(doc.folder);
    var cur;
    cur, nodes, grown := EnsurePath(root, segments, folders, leaves, view, docs, owned);
    ghost var made := EnsureAll(view, [], segments);
    assert cur in grown;
    AddDocIndexes(view, docs, doc);
    var node := AddDocument(cur, doc, nodes, leaves, made, segments);
    more := leaves + {node};
  }

  /** The folder tree of a list of documents: it indexes exactly that list. */
  method BuildTree(docs: seq<Doc>)
    returns (tree: seq<TreeNode>, ghost folders: Nodes, ghost leaves: set<TreeNode>, ghost view: View)
    ensures Mirrors(folders, leaves, view) && Indexes(view, docs)
    ensures [] in folders && tree == folders[[]].children
  {
    var root := new TreeNode("", true, "", []);
    folders, leaves, view := map[[] := root], {}, ROOT;
    RootIndexes();
    assert NodeMirrors(folders, leaves, view, []);
    tree, folders, leaves, view := PlaceDocuments(root, docs, folders, leaves, view, {root});
  }

  method PlaceDocuments(root: TreeNode, docs: seq<Doc>, ghost folders0: Nodes, ghost leaves0: set<TreeNode>,
                        ghost view0: View, ghost owned0: set<TreeNode>)
    returns (tree: seq<TreeNode>, ghost folders: Nodes, ghost leaves: set<TreeNode>, ghost view: View)
    requires Mirrors(folders0, leaves0, view0) && Indexes(view0, []) && [] in folders0 && folders0[[]] == root
    requires Owns(owned0, folders0)
    modifies owned0`children
    ensures Mirrors(folders, leaves, view) && Indexes(view, docs)
    ensures [] in folders && tree == folders[[]].children
  {
    folders, leaves, view := folders0, leaves0, view0;
    ghost var owned, done: seq<Doc> := owned0, [];
    assert done + docs[0..] == docs;
    for i := 0 to |docs|
      invariant Mirrors(folders, leaves, view) && Indexes(view, done)
      invariant [] in folders && folders[[]] == root
      invariant Owns(owned, folders) && owned0 <= owned && fresh(owned - owned0)
      invariant done + docs[i..] == docs
    {
      folders, leaves, owned := PlaceDocument(root, docs[i], folders, leaves, view, done, owned);
      view := AddDoc(view, docs[i]);
      assert done + [docs[i]] + docs[i + 1..] == done + docs[i..];
      done := done + [docs[i]];
    }
    assert done + [] == done;
    tree := root.children;
  }

  /** The child folder of that name, if there is one. */
  method FindFolder(nodes: seq<TreeNode>, name: string, ghost folders: Nodes, ghost leaves: set<TreeNode>,
                    ghost view: View, ghost p: seq<string>)
    returns (next: Option<seq<TreeNode>>)
    requires Mirrors(folders, leaves, view) && Tree(view) && p in view && folders[p].children == nodes
    ensures next.Some? <==> Folder(name) in view[p]
    ensures next.Some? ==> p + [name] in folders && next.value == folders[p + [name]].children
  {
    assert NodeMirrors(folders, leaves, view, p);
    for i := 0 to |nodes|
      invariant forall k | 0 <= k < i :: view[p][k] != Folder(name)
    {
      assert ChildMirrors(folders, leaves, p, nodes[i], view[p][i]);
      if nodes[i].isFolder && nodes[i].name == name {
        assert view[p][i] == Folder(name);
        return Some(nodes[i].children);
      }
    }
    next := None;
  }

  /** The first document child with that title. */
  method FindTitle(lower: string -> string, nodes: seq<TreeNode>, title: string, ghost folders: Nodes,
                   ghost leaves: set<TreeNode>, ghost view: View, ghost p: seq<string>)
    returns (uid: Option<string>)
    requires Mirrors(folders, leaves, view) && p in view && folders[p].children == nodes
    ensures uid == FirstTitled(lower, view[p], title)
  {
    assert NodeMirrors(folders, leaves, view, p);
    var target := NormalizedTitle(lower, title);
    assert view[p][0..] == view[p];
    for i := 0 to |nodes|
      invariant FirstTitled(lower, view[p][i..], title) == FirstTitled(lower, view[p], title)
    {
      assert ChildMirrors(folders, leaves, p, nodes[i], view[p][i]);
      assert view[p][i..][1..] == view[p][i + 1..] && view[p][i..][0] == view[p][i];
      if !nodes[i].isFolder && NormalizedTitle(lower, nodes[i].name) == target {
        return Some(nodes[i].uid);
      }
    }
    uid := None;
  }

  /** Searching the tree gives the first document of the list with these folders and this title. */
  method FindDocInFolder(lower: string -> string, tree: seq<TreeNode>, folderSegments: seq<string>, title: string,
                         ghost folders: Nodes, ghost leaves: set<TreeNode>, ghost view: View, ghost docs: seq<Doc>)
    returns (uid: Option<string>)
    requires Mirrors(folders, leaves, view) && Indexes(view, docs) && [] in folders && tree == folders[[]].children
    ensures uid == UidAt(docs, FirstNamed(lower, docs, folderSegments, title))
  {
    TreeAgreesWithList(lower, view, docs, folderSegments, title);
    var nodes := tree;
    ghost var p := [];
    assert folderSegments[0..] == folderSegments;
    for i := 0 to |folderSegments|
      invariant p in view && folders[p].children == nodes
      invariant Descend(view, p, folderSegments[i..]) == Descend(view, [], folderSegments)
    {
      RestOfRest(folderSegments, i);
      ChildIsEntry(view, p, folderSegments[i]);
      var next := FindFolder(nodes, folderSegments[i], folders, leaves, view, p);
      if next.None? { return None; }
      nodes := next.value;
      p := p + [folderSegments[i]];
    }
    uid := FindTitle(lower, nodes, title, folders, leaves, view, p);
  }

  method NormalizeRelativeSegments(base: seq<string>, relative: seq<string>) returns (out: Option<seq<string>>)
    ensures out == Normalize(base, relative)
  {
    var segments := base;
    assert relative[0..] == relative;
    for i := 0 to |relative|
      invariant Normalize(segments, relative[i..]) == Normalize(base, relative)
    {
      RestOfRest(relative, i);
      if relative[i] == "." {
      } else if relative[i] == ".." {
        if segments == [] { return None; }
        segments := segments[..|segments| - 1];
      } else {
        segments := segments + [relative[i]];
      }
    }
    out := Some(segments);
  }

  method ResolveRootRelativePath(lower: string -> string, tree: seq<TreeNode>, href: string, ghost folders: Nodes,
                                 ghost leaves: set<TreeNode>, ghost view: View, ghost docs: seq<Doc>)
    returns (uid: Option<string>)
    requires Mirrors(folders, leaves, view) && Indexes(view, docs) && [] in folders && tree == folders[[]].children
    ensures uid == UidAt(docs, ResolveRoot(lower, docs, href))
  {
    var segments := SplitPathSegments(Path(Decoded(href)));
    if segments == [] { return None; }
    var n := |segments| - 1;
    uid := FindDocInFolder(lower, tree, segments[..n], StripExt(segments[n]), folders, leaves, view, docs);
  }

  method ResolveRelativePath(lower: string -> string, tree: seq<TreeNode>, base: string, href: string,
                             ghost folders: Nodes, ghost leaves: set<TreeNode>, ghost view: View, ghost docs: seq<Doc>)
    returns (uid: Option<string>)
    requires Mirrors(folders, leaves, view) && Indexes(view, docs) && [] in folders && tree == folders[[]].children
    ensures uid == UidAt(docs, ResolveRelative(lower, docs, base, href))
  {
    var baseSegments := SplitPathSegments(base);
    var relative := SplitPathSegments(Path(Decoded(href)));
    var segments := NormalizeRelativeSegments(baseSegments, relative);
    if segments.None? || segments.value == [] { return None; }
    var n := |segments.value| - 1;
    uid := FindDocInFolder(lower, tree, segments.value[..n], StripExt(segments.value[n]), folders, leaves, view, docs);
  }
}
