/** Paths of links, and what they name in a flat list of documents. */
module Links {
  import opened Options
  import opened Percent
  import opened Strings

  datatype Doc = Doc(uid: string, title: string, folder: string)

  function SplitPath(path: string): (r: seq<string>)
    ensures forall s | s in r :: s != "" && '/' !in s
  {
    SplitLacks(path, '/');
    NonEmpty(Split(path, '/'))
  }

  function AsciiLower(s: string): string {
    if s == "" then "" else [if 'A' <= s[0] <= 'Z' then s[0] - 'A' + 'a' else s[0]] + AsciiLower(s[1..])
  }

  /** The extensions a title may carry. The last is "markdown" with the Kelvin sign for its k, which
      matching without regard to case also accepts. */
  const EXTENSIONS: seq<string> := ["md", "markdown", "html", "htm", "pdf", "mar\U{E2}\U{84}\U{AA}down"]

  predicate EndsWith(s: string, extension: string) {
    |extension| < |s| && AsciiLower(s[|s| - |extension| - 1..]) == "." + extension
  }

  function StripAny(s: string, extensions: seq<string>): string {
    if extensions == [] then s
    else if EndsWith(s, extensions[0]) then s[..|s| - |extensions[0]| - 1]
    else StripAny(s, extensions[1..])
  }

  function StripExt(s: string): string { StripAny(s, EXTENSIONS) }

  /** How titles compare; `lower` is the lower-casing of the platform. */
  function NormalizedTitle(lower: string -> string, s: string): string { lower(StripExt(s)) }

  predicate Named(lower: string -> string, d: Doc, folder: seq<string>, title: string) {
    SplitPath(d.folder) == folder && NormalizedTitle(lower, d.title) == NormalizedTitle(lower, title)
  }

  /** The first document of the list with these folders and this title. */
  function FirstNamed(lower: string -> string, docs: seq<Doc>, folder: seq<string>, title: string): (r: Option<nat>)
    ensures r.Some? ==> r.value < |docs| && Named(lower, docs[r.value], folder, title)
    ensures r.Some? ==> forall k | 0 <= k < r.value :: !Named(lower, docs[k], folder, title)
    ensures r.None? ==> forall k | 0 <= k < |docs| :: !Named(lower, docs[k], folder, title)
  {
    if docs == [] then None
    else if Named(lower, docs[0], folder, title) then Some(0)
    else
      var rest := FirstNamed(lower, docs[1..], folder, title);
      assert forall k | 1 <= k < |docs| :: docs[k] == docs[1..][k - 1];
      if rest.None? then None else Some(rest.value + 1)
  }

  predicate Cuts(c: char) { c == '?' || c == '#' }

  /** The part of a text in front of its first '?' or '#'. */
  function Path(s: string): string {
    if s == "" || Cuts(s[0]) then "" else [s[0]] + Path(s[1..])
  }

  /** The part from the first '?' or '#' on. */
  function Suffix(s: string): string {
    if s == "" || Cuts(s[0]) then s else Suffix(s[1..])
  }

  /** The segments a root-relative link names. */
  function RootSegments(href: string): seq<string> { SplitPath(Path(Decoded(href))) }

  /** The segments with "." dropped and ".." taking one away; none when it climbs over the root. */
  function Normalize(base: seq<string>, relative: seq<string>): Option<seq<string>>
    decreases relative
  {
    if relative == [] then Some(base)
    else if relative[0] == "." then Normalize(base, relative[1..])
    else if relative[0] == ".." then
      if base == [] then None else Normalize(base[..|base| - 1], relative[1..])
    else Normalize(base + [relative[0]], relative[1..])
  }

  function RelativeSegments(base: string, href: string): Option<seq<string>> {
    Normalize(SplitPath(base), SplitPath(Path(Decoded(href))))
  }

  /** The document that segments name: all but the last are folders, the last a title. */
  function Target(lower: string -> string, docs: seq<Doc>, segments: seq<string>): (r: Option<nat>)
    ensures r.Some? ==> r.value < |docs|
  {
    if segments == [] then None
    else FirstNamed(lower, docs, segments[..|segments| - 1], StripExt(segments[|segments| - 1]))
  }

  function ResolveRoot(lower: string -> string, docs: seq<Doc>, href: string): (r: Option<nat>)
    ensures r.Some? ==> r.value < |docs|
  {
    Target(lower, docs, RootSegments(href))
  }

  function ResolveRelative(lower: string -> string, docs: seq<Doc>, base: string, href: string): (r: Option<nat>)
    ensures r.Some? ==> r.value < |docs|
  {
    var segments := RelativeSegments(base, href);
    if segments.None? then None else Target(lower, docs, segments.value)
  }

  function EscapeSegments(segments: seq<string>): seq<string> {
    if segments == [] then [] else [Escape(segments[0])] + EscapeSegments(segments[1..])
  }

  function EscapePathSegments(segments: seq<string>): string { "/" + Join(EscapeSegments(segments), '/') }

  function CanonicalHref(folder: string, title: string): string {
    EscapePathSegments(SplitPath(folder) + [title])
  }

  predicate Under(segments: seq<string>, prefix: seq<string>) { prefix <= segments }

  function RewritePathPrefix(href: string, from: string, to: string): Option<string> {
    var decoded := Decoded(Path(href));
    var segments, prefix := SplitPath(decoded), SplitPath(from);
    if decoded == "" || decoded[0] != '/' || |segments| <= |prefix| || !Under(segments, prefix) then None
    else Some(EscapePathSegments(SplitPath(to) + segments[|prefix|..]) + Suffix(href))
  }

  function ResolveRelativeToCanonical(base: string, href: string): Option<string> {
    var segments := RelativeSegments(base, href);
    if segments.None? || segments.value == [] then None
    else Some(EscapePathSegments(segments.value) + Suffix(Decoded(href)))
  }
}
