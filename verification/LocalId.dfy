/** The identity marker a work-tree file carries: writing it, reading it and taking it off. */
module LocalId {
  import opened Options
  import opened Strings

  const KEY: string := "memogit-id"
  const MANIFEST_KEY: string := "memogit-attachments:"

  predicate Blank(c: char) { c == ' ' || c == '\t' }

  predicate Blanks(s: string) { forall c | c in s :: Blank(c) }

  predicate White(c: char) { c == ' ' || c == '\t' || c == '\n' || c == '\r' || c == '\U{0C}' }

  /** White space as Unicode has it. */
  predicate Space(c: char) {
    || White(c) || c == '\U{0B}' || c == '\U{85}' || c == '\U{A0}' || c == '\U{1680}' || '\U{2000}' <= c <= '\U{200A}'
    || c == '\U{2028}' || c == '\U{2029}' || c == '\U{202F}' || c == '\U{205F}' || c == '\U{3000}'
  }

  function TrimSpace(s: string): string {
    if s == "" then "" else if Space(s[0]) then TrimSpace(s[1..])
    else if Space(s[|s| - 1]) then TrimSpace(s[..|s| - 1]) else s
  }

  /** The text behind its leading blanks. */
  function Skip(s: string): (r: string)
    ensures |r| <= |s|
  {
    if s != "" && Blank(s[0]) then Skip(s[1..]) else s
  }

  /** The text behind a literal, if it stands at the front. */
  function Eat(literal: string, s: string): (r: Option<string>)
    ensures r.Some? ==> |r.value| == |s| - |literal| && s == literal + r.value
  {
    if literal <= s then Some(s[|literal|..]) else None
  }

  /** Blanks and then a literal. */
  function SkipEat(literal: string, s: Option<string>): Option<string> {
    if s.None? then None else Eat(literal, Skip(s.value))
  }

  function WithoutPrefix(prefix: string, s: string): string {
    if prefix <= s then s[|prefix|..] else s
  }

  // The comment marker, on a line of its own.

  /** The characters in front of the first white space or '>'. */
  function Word(s: string): string {
    if s == "" || White(s[0]) || s[0] == '>' then "" else [s[0]] + Word(s[1..])
  }

  function AfterWord(s: string): string {
    if s == "" || White(s[0]) || s[0] == '>' then s else AfterWord(s[1..])
  }

  /** The uid of a line that is a comment marker. */
  function CommentUid(line: string): Option<string> {
    var head := SkipEat(":", SkipEat(KEY, SkipEat("<!--", Some(line))));
    if head.None? then None
    else
      var rest := WithoutPrefix("memos/", Skip(head.value));
      var word, after := Word(rest), AfterWord(rest);
      if after != "" && after[0] == '>' then
        if |word| >= 2 && word[|word| - 2..] == "--" && Blanks(after[1..]) then Some(word[..|word| - 2]) else None
      else
        var close := SkipEat("-->", Some(after));
        if close.Some? && Blanks(close.value) then Some(word) else None
  }

  function Lines(s: string): seq<string> { Split(s, '\n') }

  function Unlines(lines: seq<string>): string { Join(lines, '\n') }

  predicate IsComment(line: string) { CommentUid(line).Some? }

  function FirstComment(lines: seq<string>): Option<string> {
    if lines == [] then None
    else if IsComment(lines[0]) then CommentUid(lines[0])
    else FirstComment(lines[1..])
  }

  /** The lines with those of a kind made empty. */
  function BlankWhere(kind: string -> bool, lines: seq<string>): (r: seq<string>)
    ensures |r| == |lines|
  {
    if lines == [] then [] else [if kind(lines[0]) then "" else lines[0]] + BlankWhere(kind, lines[1..])
  }

  function BlankComments(lines: seq<string>): seq<string> { BlankWhere(IsComment, lines) }

  // The JSON marker, with the newline in front of it.

  /** A match at the front of a text: the uid, and the text behind. */
  datatype Match = Match(uid: string, rest: string)

  function JsonHead(s: string): Option<string> {
    SkipEat("\"", SkipEat(":", SkipEat("\"" + KEY + "\"", Eat("\n", s))))
  }

  /** The text up to the next quote and the text behind it. */
  function UntilQuote(s: string): Option<Match> {
    if s == "" then None
    else if s[0] == '"' then Some(Match("", s[1..]))
    else
      var r := UntilQuote(s[1..]);
      if r.None? then None else Some(Match([s[0]] + r.value.uid, r.value.rest))
  }

  function JsonMatch(s: string): (r: Option<Match>)
    ensures r.Some? ==> |r.value.rest| < |s|
  {
    var head := JsonHead(s);
    if head.None? then None
    else
      var value := UntilQuote(head.value);
      if value.None? then None
      else
        UntilQuoteShrinks(head.value);
        var end := SkipEat(",", Some(value.value.rest));
        if end.None? then None else Some(Match(WithoutPrefix("memos/", value.value.uid), end.value))
  }

  lemma {:induction false} UntilQuoteShrinks(s: string)
    ensures UntilQuote(s).Some? ==> |UntilQuote(s).value.rest| < |s|
  {
    if s != "" && s[0] != '"' { UntilQuoteShrinks(s[1..]); }
  }

  function StripJson(s: string): string
    decreases |s|
  {
    if s == "" then ""
    else if JsonMatch(s).Some? then StripJson(JsonMatch(s).value.rest)
    else [s[0]] + StripJson(s[1..])
  }

  function FirstJson(s: string): Option<string> {
    if s == "" then None
    else if JsonMatch(s).Some? then Some(JsonMatch(s).value.uid)
    else FirstJson(s[1..])
  }

  // The attachment manifest.

  predicate ManifestHead(line: string) { SkipEat(MANIFEST_KEY, SkipEat("<!--", Some(line))).Some? }

  predicate CloseLine(line: string) {
    var r := SkipEat("-->", Some(line));
    r.Some? && Blanks(r.value)
  }

  function FirstWhere(kind: string -> bool, lines: seq<string>): (r: Option<nat>)
    ensures r.Some? ==> r.value < |lines|
  {
    if lines == [] then None
    else if kind(lines[0]) then Some(0)
    else
      var r := FirstWhere(kind, lines[1..]);
      if r.None? then None else Some(r.value + 1)
  }

  /** The first line is a head, and a closing line follows. */
  predicate Opens(head: string -> bool, close: string -> bool, lines: seq<string>)
    requires lines != []
  {
    head(lines[0]) && FirstWhere(close, lines[1..]).Some?
  }

  /** Each block from a head to the next closing line becomes an empty line. */
  function BlankBlocks(head: string -> bool, close: string -> bool, lines: seq<string>): seq<string>
    decreases |lines|
  {
    if lines == [] then []
    else if Opens(head, close, lines)
    then [""] + BlankBlocks(head, close, lines[1..][FirstWhere(close, lines[1..]).value + 1..])
    else [lines[0]] + BlankBlocks(head, close, lines[1..])
  }

  function FirstBlock(head: string -> bool, close: string -> bool, lines: seq<string>): string {
    if lines == [] then ""
    else if Opens(head, close, lines)
    then Unlines([lines[0]] + lines[1..][..FirstWhere(close, lines[1..]).value + 1])
    else FirstBlock(head, close, lines[1..])
  }

  function BlankManifests(lines: seq<string>): seq<string> { BlankBlocks(ManifestHead, CloseLine, lines) }

  function ExtractManifest(s: string): string { FirstBlock(ManifestHead, CloseLine, Lines(s)) }

  // The operations.

  function ParseLocalID(content: string): string {
    var comment, json := FirstComment(Lines(content)), FirstJson(content);
    if comment.Some? then TrimSpace(comment.value) else if json.Some? then TrimSpace(json.value) else ""
  }

  function StripLocalID(content: string): string {
    TrimNewlines(Unlines(BlankComments(Lines(Unlines(BlankManifests(Lines(StripJson(content))))))))
  }

  function LocalIDComment(uid: string): string { "<!-- " + KEY + ": memos/" + uid + " -->" }

  /** For a uid that quoting leaves as it is. */
  function LocalIDJSON(uid: string): string { "\n  \"" + KEY + "\": \"memos/" + uid + "\"," }

  /** Where a text stands in another, first. */
  function Index(s: string, part: string): (r: Option<nat>)
    ensures r.Some? ==> r.value + |part| <= |s| && s[r.value..r.value + |part|] == part
  {
    if part <= s then Some(0)
    else if s == "" then None
    else
      var r := Index(s[1..], part);
      if r.None? then None else Some(r.value + 1)
  }

  /** Where the JSON of a view begins: behind the frontmatter, if there is one. */
  function JsonBodyStart(body: string): (r: nat)
    ensures r <= |body|
  {
    if !("---\n" <= body) then 0
    else
      var end := Index(body[4..], "\n---");
      if end.None? then 0
      else
        var rest := 4 + end.value + 4;
        var newline := Index(body[rest..], "\n");
        if newline.None? then |body| else rest + newline.value + 1
  }

  /** The place behind the opening brace, if there is one. */
  function BracePlace(body: string): (r: Option<nat>)
    ensures r.Some? ==> 0 < r.value <= |body| && body[r.value - 1] == '{'
  {
    var start := JsonBodyStart(body);
    var brace := Index(body[start..], "{");
    if brace.None? then None
    else
      assert body[start..][brace.value..brace.value + 1] == "{";
      assert body[start + brace.value] == body[start..][brace.value..brace.value + 1][0];
      Some(start + brace.value + 1)
  }

  function InjectJSONLocalID(body: string, uid: string): string {
    var at := BracePlace(body);
    if at.None? then body else body[..at.value] + LocalIDJSON(uid) + body[at.value..]
  }

  predicate IsView(docType: string) { docType == "VIEW" || docType == "BLOGVIEW" }

  function InjectMarkers(content: string, manifest: string, uid: string, docType: string): string {
    if uid == "" then content
    else
      var body := StripLocalID(content);
      if IsView(docType) then InjectJSONLocalID(body, uid)
      else body + "\n\n" + (if manifest != "" then manifest + "\n" else "") + LocalIDComment(uid)
  }

  function InjectLocalID(content: string, uid: string, docType: string): string {
    InjectMarkers(content, ExtractManifest(content), uid, docType)
  }
}
