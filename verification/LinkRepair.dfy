/** Links that are rewritten keep naming what they named. */
module LinkRepair {
  import opened Lists
  import opened Options
  import opened Percent
  import opened Strings
  import opened Links

  /** What one segment of a readable path may be. */
  predicate Segment(s: string) { s != "" && forall c | c in s :: c != '/' && !Cuts(c) }

  predicate Unescaped(s: string) { forall c | c in s :: !NeedsEscape(c) }

  lemma PathLacksCuts(s: string)
    ensures forall c | c in Path(s) :: c in s && !Cuts(c)
    ensures s == Path(s) + Suffix(s)
    ensures Suffix(s) != "" ==> Cuts(Suffix(s)[0])
  {
    PathAndSuffix(s);
    PathHasNoCut(s);
    assert forall c | c in Path(s) :: c in Path(s) + Suffix(s);
  }

  lemma {:induction false} PathAndSuffix(s: string)
    ensures s == Path(s) + Suffix(s)
    ensures Suffix(s) != "" ==> Cuts(Suffix(s)[0])
  {
    if s != "" && !Cuts(s[0]) {
      PathAndSuffix(s[1..]);
      Assoc([s[0]], Path(s[1..]), Suffix(s[1..]));
      assert s == [s[0]] + s[1..];
    }
  }

  lemma {:induction false} PathHasNoCut(s: string)
    ensures forall c | c in Path(s) :: !Cuts(c)
  {
    if s != "" && !Cuts(s[0]) { PathHasNoCut(s[1..]); }
  }

  lemma {:induction false} PathBehind(a: string, b: string)
    requires forall c | c in a :: !Cuts(c)
    requires b == "" || Cuts(b[0])
    ensures Path(a + b) == a && Suffix(a + b) == b
  {
    if a == "" {
      assert a + b == b;
    } else {
      assert (a + b)[1..] == a[1..] + b && a[0] in a;
      PathBehind(a[1..], b);
      assert [a[0]] + a[1..] == a;
    }
  }

  lemma {:induction false} SplitKeeps(s: string, sep: char)
    ensures forall p, c | p in Split(s, sep) && c in p :: c in s
  {
    if s != "" {
      SplitKeeps(s[1..], sep);
      assert s == [s[0]] + s[1..];
      var rest := Split(s[1..], sep);
      forall p, c | p in Split(s, sep) && c in p ensures c in s {
        if p in rest {
          assert c in s[1..];
        } else if s[0] != sep {
          assert p == [s[0]] + rest[0];
          assert c == s[0] || c in rest[0];
        }
      }
    }
  }

  /** Everything a path splits into is a segment, when nothing cuts the path. */
  lemma SplitGivesSegments(path: string)
    requires forall c | c in path :: !Cuts(c)
    ensures forall s | s in SplitPath(path) :: Segment(s)
  {
    SplitKeeps(path, '/');
  }

  lemma {:induction false} SplitConcat(a: string, b: string)
    ensures SplitPath(a + "/" + b) == SplitPath(a) + SplitPath(b)
  {
    SplitAround(a, b, '/');
    assert a + "/" + b == a + ['/'] + b;
    NonEmptyConcat(Split(a, '/'), Split(b, '/'));
  }

  lemma {:induction false} NonEmptyConcat(a: seq<string>, b: seq<string>)
    ensures NonEmpty(a + b) == NonEmpty(a) + NonEmpty(b)
  {
    if a == [] {
      assert a + b == b;
    } else {
      FrontOfBoth(a, b);
      NonEmptyConcat(a[1..], b);
    }
  }

  /** Segments joined and split again. */
  lemma {:induction false} JoinedSegments(segments: seq<string>)
    requires forall s | s in segments :: s != "" && '/' !in s
    ensures SplitPath("/" + Join(segments, '/')) == segments
    ensures SplitPath(Join(segments, '/')) == segments
  {
    var joined := Join(segments, '/');
    SplitConcat("", joined);
    assert "" + "/" + joined == "/" + joined;
    assert SplitPath("") == [];
    if segments == [] {
      assert joined == "";
    } else {
      SplitJoin(segments, '/');
      NonEmptyKeepsAll(segments);
    }
  }

  lemma {:induction false} EscapeJoins(segments: seq<string>)
    ensures Join(EscapeSegments(segments), '/') == Escape(Join(segments, '/'))
  {
    if |segments| > 1 {
      EscapeJoins(segments[1..]);
      var tail := Join(segments[1..], '/');
      Percent.EscapeConcat(segments[0] + ['/'], tail);
      Percent.EscapeConcat(segments[0], ['/']);
      assert Escape(['/']) == ['/'] + Escape("") == ['/'];
    } else if |segments| == 1 {
      assert EscapeSegments(segments) == [Escape(segments[0])];
    }
  }

  lemma EscapedPath(segments: seq<string>)
    ensures EscapePathSegments(segments) == Escape("/" + Join(segments, '/'))
  {
    EscapeJoins(segments);
    EscapeSlash(Join(segments, '/'));
  }

  lemma EscapeSlash(s: string)
    ensures Escape("/" + s) == "/" + Escape(s)
  {
    assert ("/" + s)[1..] == s;
  }

  lemma {:induction false} EscapeKeepsSegments(segments: seq<string>)
    requires forall s | s in segments :: Segment(s)
    ensures |EscapeSegments(segments)| == |segments|
    ensures forall s | s in EscapeSegments(segments) :: Segment(s)
    ensures EscapeSegments(segments) == segments <==> forall s | s in segments :: Unescaped(s)
  {
    if segments != [] {
      var s, rest := segments[0], segments[1..];
      assert s in segments && Segment(s);
      EscapeKeepsSegments(rest);
      EscapeFixes(s);
      EscapeKeepsAll(s);
      assert segments == [s] + rest;
      assert EscapeSegments(segments)[1..] == EscapeSegments(rest);
    }
  }

  lemma EscapeKeepsAll(s: string)
    requires Segment(s)
    ensures Segment(Escape(s))
  {
    EscapeKeeps(s, '/');
    EscapeKeeps(s, '?');
    EscapeKeeps(s, '#');
    EscapeFixes(s);
  }

  lemma {:induction false} JoinLacksCuts(segments: seq<string>)
    requires forall s | s in segments :: Segment(s)
    ensures forall c | c in Join(segments, '/') :: !Cuts(c)
  {
    if segments != [] {
      assert segments[0] in segments && Segment(segments[0]);
      JoinLacksCuts(segments[1..]);
    }
  }

  /** A written path with a query or fragment behind it, read back by the resolver, names its segments
      exactly when they are segments and, unless nothing in them is escaped, what stands behind decodes. */
  lemma WrittenPathReads(segments: seq<string>, suffix: string)
    requires segments != [] && (suffix == "" || Cuts(suffix[0]))
    ensures RootSegments(EscapePathSegments(segments) + suffix) == segments
      <==> && (forall s | s in segments :: Segment(s))
           && (PathUnescape(suffix).Some? || forall s | s in segments :: Unescaped(s))
  {
    var href := EscapePathSegments(segments) + suffix;
    PathLacksCuts(Decoded(href));
    SplitGivesSegments(Path(Decoded(href)));
    if forall s | s in segments :: Segment(s) {
      ReadSegments(segments, suffix);
      EscapeKeepsSegments(segments);
    }
  }

  lemma ReadSegments(segments: seq<string>, suffix: string)
    requires forall s | s in segments :: Segment(s)
    requires suffix == "" || Cuts(suffix[0])
    ensures RootSegments(EscapePathSegments(segments) + suffix)
         == if PathUnescape(suffix).Some? then segments else EscapeSegments(segments)
  {
    var path, href := "/" + Join(segments, '/'), EscapePathSegments(segments) + suffix;
    EscapedPath(segments);
    UnescapeEscape(path, suffix);
    if PathUnescape(suffix).Some? {
      var rest := PathUnescape(suffix).value;
      assert suffix != "" ==> rest[0] == suffix[0];
      JoinLacksCuts(segments);
      PathBehind(path, rest);
      JoinedSegments(segments);
    } else {
      EscapeKeepsSegments(segments);
      JoinLacksCuts(EscapeSegments(segments));
      PathBehind(EscapePathSegments(segments), suffix);
      JoinedSegments(EscapeSegments(segments));
    }
  }

  // Canonical links.

  /** A canonical link leads to its document exactly when the folders and the title can be segments,
      taking the extension off twice leaves the title as taking it off once, and no document before it
      in the list has its place. */
  lemma CanonicalHrefResolves(lower: string -> string, docs: seq<Doc>, i: nat)
    requires i < |docs|
    requires Segment(docs[i].title) && forall s | s in SplitPath(docs[i].folder) :: Segment(s)
    ensures var d := docs[i];
      (ResolveRoot(lower, docs, CanonicalHref(d.folder, d.title)) == Some(i))
        <==> && lower(StripExt(StripExt(d.title))) == lower(StripExt(d.title))
             && forall k | 0 <= k < i :: !Named(lower, docs[k], SplitPath(d.folder), StripExt(d.title))
  {
    var d := docs[i];
    CanonicalHrefNames(d.folder, d.title);
    TargetInFolder(lower, docs, SplitPath(d.folder), d.title);
    FirstIs(lower, docs, SplitPath(d.folder), StripExt(d.title), i);
  }

  lemma FirstIs(lower: string -> string, docs: seq<Doc>, folder: seq<string>, title: string, i: nat)
    requires i < |docs|
    ensures FirstNamed(lower, docs, folder, title) == Some(i)
      <==> Named(lower, docs[i], folder, title) && forall k | 0 <= k < i :: !Named(lower, docs[k], folder, title)
  {
  }

  lemma TargetInFolder(lower: string -> string, docs: seq<Doc>, folder: seq<string>, title: string)
    ensures Target(lower, docs, folder + [title]) == FirstNamed(lower, docs, folder, StripExt(title))
  {
    var segments := folder + [title];
    assert segments[..|segments| - 1] == folder;
  }

  /** Which folder and title a canonical link can carry. */
  lemma CanonicalHrefNames(folder: string, title: string)
    ensures RootSegments(CanonicalHref(folder, title)) == SplitPath(folder) + [title]
      <==> Segment(title) && forall s | s in SplitPath(folder) :: Segment(s)
  {
    var segments := SplitPath(folder) + [title];
    WrittenPathReads(segments, "");
    assert EscapePathSegments(segments) + "" == EscapePathSegments(segments);
    assert title in segments && forall s | s in SplitPath(folder) :: s in segments;
  }

  lemma TakesOffMd(s: string)
    ensures StripExt(s + ".md") == s
  {
    var t := s + ".md";
    MdIsLower();
    assert t[|t| - 3..] == ".md" && t[..|t| - 3] == s;
    assert EXTENSIONS[0] == "md" && EndsWith(t, "md");
  }

  lemma MdIsLower()
    ensures AsciiLower(".md") == "." + "md"
  {
    assert ".md"[1..] == "md" && "md"[1..] == "d" && "d"[1..] == "";
    assert AsciiLower("d") == "d" && AsciiLower("md") == "md";
  }

  lemma MdSegment(t: string)
    requires Segment(t)
    ensures Segment(t + ".md")
  {
  }

  /** The canonical link of a title with two extensions, such as "a.md.md", does not lead to its document,
      where lower-casing tells "a" from "a.md". */
  lemma DoubleExtensionIsLost(lower: string -> string, uid: string, t: string)
    requires Segment(t) && lower(t) != lower(t + ".md")
    ensures var title := t + ".md" + ".md";
      ResolveRoot(lower, [Doc(uid, title, "")], CanonicalHref("", title)) != Some(0)
  {
    TakesOffMd(t + ".md");
    TakesOffMd(t);
    MdSegment(t);
    MdSegment(t + ".md");
    assert SplitPath("") == [];
    CanonicalHrefResolves(lower, [Doc(uid, t + ".md" + ".md", "")], 0);
  }

  // Relative links made absolute.

  /** Making a relative link absolute keeps the path it names exactly when every part of that path can be a
      segment and, unless nothing in it is escaped, the link's query or fragment decodes once more. */
  lemma FossilNamesThePath(base: string, href: string)
    requires ResolveRelativeToCanonical(base, href).Some?
    ensures var segments := RelativeSegments(base, href).value;
      (RootSegments(ResolveRelativeToCanonical(base, href).value) == segments)
        <==> && (forall s | s in segments :: Segment(s))
             && (PathUnescape(Suffix(Decoded(href))).Some? || forall s | s in segments :: Unescaped(s))
  {
    PathLacksCuts(Decoded(href));
    WrittenPathReads(RelativeSegments(base, href).value, Suffix(Decoded(href)));
  }

  /** Then it leads to the same document of every list. */
  lemma FossilLeadsToTheSame(lower: string -> string, docs: seq<Doc>, base: string, href: string)
    requires ResolveRelativeToCanonical(base, href).Some?
    requires var segments := RelativeSegments(base, href).value;
      && (forall s | s in segments :: Segment(s))
      && (PathUnescape(Suffix(Decoded(href))).Some? || forall s | s in segments :: Unescaped(s))
    ensures ResolveRoot(lower, docs, ResolveRelativeToCanonical(base, href).value)
         == ResolveRelative(lower, docs, base, href)
  {
    FossilNamesThePath(base, href);
  }

  /** Where the folders of the base are segments, so is every part of the path a link names from there. */
  lemma RelativeSegmentsAreSegments(base: string, href: string)
    requires RelativeSegments(base, href).Some? && forall s | s in SplitPath(base) :: Segment(s)
    ensures forall s | s in RelativeSegments(base, href).value :: Segment(s)
  {
    PathLacksCuts(Decoded(href));
    SplitGivesSegments(Path(Decoded(href)));
    NormalizeKeeps(SplitPath(base), SplitPath(Path(Decoded(href))));
  }

  lemma {:induction false} NormalizeKeeps(base: seq<string>, relative: seq<string>)
    requires Normalize(base, relative).Some?
    ensures forall s | s in Normalize(base, relative).value :: s in base || s in relative
    decreases relative
  {
    if relative != [] {
      var rest := relative[1..];
      if relative[0] == "." {
        NormalizeKeeps(base, rest);
      } else if relative[0] == ".." {
        NormalizeKeeps(base[..|base| - 1], rest);
      } else {
        NormalizeKeeps(base + [relative[0]], rest);
      }
    }
  }

  /** From a base whose folders are all segments, every link whose query or fragment decodes once more leads,
      made absolute, to the same document of every list. */
  lemma FossilFromPlainBase(lower: string -> string, docs: seq<Doc>, base: string, href: string)
    requires ResolveRelativeToCanonical(base, href).Some?
    requires (forall s | s in SplitPath(base) :: Segment(s)) && PathUnescape(Suffix(Decoded(href))).Some?
    ensures ResolveRoot(lower, docs, ResolveRelativeToCanonical(base, href).value)
         == ResolveRelative(lower, docs, base, href)
  {
    RelativeSegmentsAreSegments(base, href);
    FossilLeadsToTheSame(lower, docs, base, href);
  }

  /** Normalizing a path in two parts is normalizing it in one. */
  lemma {:induction false} NormalizeComposes(base: seq<string>, a: seq<string>, b: seq<string>)
    ensures Normalize(base, a + b)
         == if Normalize(base, a).None? then None else Normalize(Normalize(base, a).value, b)
    decreases a
  {
    if a == [] {
      assert a + b == b;
    } else {
      assert (a + b)[1..] == a[1..] + b && (a + b)[0] == a[0];
      if a[0] == "." {
        NormalizeComposes(base, a[1..], b);
      } else if a[0] == ".." {
        if base != [] { NormalizeComposes(base[..|base| - 1], a[1..], b); }
      } else {
        NormalizeComposes(base + [a[0]], a[1..], b);
      }
    }
  }

  lemma EscapedExample()
    ensures Escape("a b#%") == "a%20b#%25"
  {
    EscapedEnd();
    assert "a b#%"[1..] == " b#%" && " b#%"[1..] == "b#%" && "b#%"[1..] == "#%";
    assert Escape("b#%") == "b#%25";
    assert Escape(" b#%") == "%20b#%25";
  }

  lemma EscapedEnd()
    ensures Escape("#%") == "#%25"
  {
    assert "#%"[1..] == "%" && "%"[1..] == "";
    assert Escape("%") == "%25";
  }

  lemma DecodedExample()
    ensures Decoded("a%20b#%25") == "a b#%" && Path("a b#%") == "a b" && Suffix("a b#%") == "#%"
    ensures PathUnescape("#%") == None
  {
    EscapedExample();
    UnescapeEscape("a b#%", "");
    assert "a%20b#%25" + "" == "a%20b#%25" && "a b#%" + "" == "a b#%";
    PathBehind("a b", "#%");
    assert "a b" + "#%" == "a b#%";
    assert "#%"[1..] == "%" && PathUnescape("%") == None;
  }

  lemma RelativeExample()
    ensures RelativeSegments("", "a%20b#%25") == Some(["a b"])
  {
    DecodedExample();
    JoinedSegments(["a b"]);
    assert Join(["a b"], '/') == "a b";
    assert SplitPath("") == [];
    assert ["a b"][1..] == [] && [] + ["a b"] == ["a b"];
    assert Normalize(["a b"], []) == Some(["a b"]);
  }

  lemma {:induction false} NothingToStrip(s: string, extensions: seq<string>)
    requires '.' !in s
    ensures StripAny(s, extensions) == s
  {
    if extensions != [] {
      if EndsWith(s, extensions[0]) {
        var dot := |s| - |extensions[0]| - 1;
        assert AsciiLower(s[dot..])[0] == '.';
        assert s[dot] in s;
      }
      NothingToStrip(s, extensions[1..]);
    }
  }

  lemma TitleExample(lower: string -> string)
    ensures Target(lower, [Doc("u", "a b", "")], ["a b"]) == Some(0)
  {
    NothingToStrip("a b", EXTENSIONS);
    assert SplitPath("") == [];
    assert Named(lower, Doc("u", "a b", ""), [], "a b");
  }

  /** `a%20b#%25` in the root folder leads to "a b"; made absolute, it is `/a%20b#%`, whose last '%'
      keeps the whole link from being decoded, and it no longer names that path. */
  lemma FossilOfPercentIsBroken(lower: string -> string)
    ensures var href := "a%20b#%25";
      && ResolveRelative(lower, [Doc("u", "a b", "")], "", href) == Some(0)
      && ResolveRelativeToCanonical("", href).Some?
      && RootSegments(ResolveRelativeToCanonical("", href).value) != ["a b"]
  {
    DecodedExample();
    RelativeExample();
    TitleExample(lower);
    FossilNamesThePath("", "a%20b#%25");
    assert !Unescaped("a b") by { assert "a b"[1] in "a b" && NeedsEscape(' '); }
  }
}
