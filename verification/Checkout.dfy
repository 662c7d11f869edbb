/** The data memogit synchronizes: the server's documents, the work tree, the conflict
    sidecars and the per-document baseline, together with the small steps out of which
    pull and push are made. A content hash is represented by the text it identifies (the
    content without trailing newlines), so two hashes are equal exactly when those texts are. */
module Checkout {
  import opened Options
  import Strings

  /** Document ids, ordered the way the source orders its uid strings. */
  type Uid = nat

  /** A path relative to the content root. */
  type Path = string

  datatype DocType = Markdown | Html | Pdf | View | BlogView

  /** A document as the server holds it. */
  datatype Memo = Memo(folder: string, title: string, docType: DocType, content: string)

  /** A server document together with its state: archived documents are not live. */
  datatype Remote = Remote(memo: Memo, live: bool)

  /** The last-synced baseline of one document. `conflict` is the server hash recorded while
      a conflict is open. */
  datatype MemoState = MemoState(path: Path, docType: DocType, hash: string, conflict: Option<string>)

  /** A work-tree document: its text with the local markers stripped, and the uid it claims. */
  datatype File = File(body: string, marker: Option<Uid>)

  /** The rules of one checkout: names, PDF stubs, and the markers: how they are taken out of a text
      (`strip`), and the text (`reread`) and the uid (`claim`) that a file shows after a text was
      written into it with a marker. Every result holds for all such rules; MarkedText has the
      rules of the source. */
  datatype Workspace = Workspace(
    relPath: (string, string, DocType) -> Path,
    derive: Path -> (string, string),
    extType: Path -> DocType,
    stub: Memo -> string,
    strip: string -> string,
    reread: (DocType, string) -> string,
    claim: (DocType, string, Uid) -> Option<Uid>)
  {
    function PathOf(m: Memo): Path { relPath(m.folder, m.title, m.docType) }
  }

  /** What lives on disk: documents, sidecars (keyed by the document they belong to) and
      the baseline. */
  datatype Local = Local(files: map<Path, File>, sidecars: map<Path, string>, memos: map<Uid, MemoState>)

  /** A work-tree document as push sees it. */
  datatype LocalDoc = LocalDoc(path: Path, content: string, marker: Option<Uid>, uid: Option<Uid>)

  /** The content without its trailing newlines: what the canonical hash identifies. */
  function Hash(content: string): string { Strings.TrimNewlines(content) }

  /** The baseline a server document has right after a sync. */
  function Baseline(ws: Workspace, m: Memo): MemoState {
    MemoState(ws.PathOf(m), m.docType, Hash(m.content), None)
  }

  /** A file into which a text was written with its marker, as it reads afterwards. */
  function Stamped(ws: Workspace, uid: Uid, docType: DocType, body: string): File {
    File(ws.reread(docType, body), ws.claim(docType, body, uid))
  }

  /** A file is left alone when its marker is right, and written anew otherwise. */
  function Restamped(ws: Workspace, uid: Uid, docType: DocType, f: File): File {
    if f.marker == Some(uid) then f else Stamped(ws, uid, docType, f.body)
  }

  /** What an export writes for a document: its content, or a generated stub for a PDF, with anything
      that reads as a marker taken out. */
  function Exported(ws: Workspace, m: Memo): string {
    ws.strip(if m.docType.Pdf? then ws.stub(m) else m.content)
  }

  function FileOf(ws: Workspace, uid: Uid, m: Memo): File {
    Stamped(ws, uid, m.docType, Exported(ws, m))
  }

  /** The text that a document's exported file, or its sidecar, reads as. */
  function BodyOf(ws: Workspace, m: Memo): string {
    ws.reread(m.docType, Exported(ws, m))
  }

  /** The exported file shows the text the server has. */
  predicate Readable(ws: Workspace, m: Memo) {
    Hash(BodyOf(ws, m)) == Hash(m.content)
  }

  function LocalHash(f: File): string { Hash(f.body) }

  /** The entries of a map with one key left out. */
  function Without<K, V>(m: map<K, V>, k: K): (r: map<K, V>)
    ensures r.Keys == m.Keys - {k}
    ensures forall x | x in r :: r[x] == m[x]
  {
    m - {k}
  }

  /** Writes a document at its new path and removes the old file when the path changed. */
  function RelocateAndWrite(files: map<Path, File>, oldPath: Path, newPath: Path, f: File): map<Path, File> {
    if oldPath == newPath then files[newPath := f] else Without(files[newPath := f], oldPath)
  }

  /** A set of uids in ascending order. */
  function Sorted(s: set<Uid>): (r: seq<Uid>)
    ensures forall u :: u in r <==> u in s
    ensures forall i, j | 0 <= i < j < |r| :: r[i] < r[j]
  {
    if s == {} then []
    else
      var u := Least(s);
      [u] + Sorted(s - {u})
  }

  function Least(s: set<Uid>): (u: Uid)
    requires s != {}
    ensures u in s && forall v | v in s :: u <= v
  {
    LeastExists(s);
    var u :| u in s && forall v | v in s :: u <= v;
    u
  }

  lemma LeastExists(s: set<Uid>)
    requires s != {}
    ensures exists u :: u in s && forall v | v in s :: u <= v
  {
    var x :| x in s;
    if s - {x} != {} {
      LeastExists(s - {x});
      var y :| y in s - {x} && forall v | v in s - {x} :: y <= v;
      LeastOfBoth(s, x, y);
    } else {
      assert s == {x};
    }
  }

  lemma LeastOfBoth(s: set<Uid>, x: Uid, y: Uid)
    requires x in s && y in s && forall v | v in s - {x} :: y <= v
    ensures exists u :: u in s && forall v | v in s :: u <= v
  {
    var u := if x <= y then x else y;
    forall v | v in s ensures u <= v {
      if v != x { assert v in s - {x}; }
    }
  }
}
