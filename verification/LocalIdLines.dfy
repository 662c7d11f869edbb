/** How comment markers and manifests stand in the lines of a text. */
module LocalIdLines {
  import opened Lists
  import opened Options
  import opened Strings
  import opened LocalId
  import opened LocalIdText

  predicate LineText(lines: seq<string>) { forall l | l in lines :: '\n' !in l }

  ghost predicate NoneWhere(kind: string -> bool, lines: seq<string>) {
    forall l | l in lines :: !kind(l)
  }

  /** No block from a head to a closing line. */
  ghost predicate NoBlock(head: string -> bool, close: string -> bool, lines: seq<string>) {
    forall i, j | 0 <= i < j < |lines| :: head(lines[i]) ==> !close(lines[j])
  }

  lemma {:induction false} FirstWhereFinds(kind: string -> bool, lines: seq<string>)
    ensures FirstWhere(kind, lines).None? <==> NoneWhere(kind, lines)
    ensures FirstWhere(kind, lines).Some? ==> kind(lines[FirstWhere(kind, lines).value])
  {
    if lines != [] {
      FirstWhereFinds(kind, lines[1..]);
      assert lines == [lines[0]] + lines[1..];
    }
  }

  lemma NoBlockOpens(head: string -> bool, close: string -> bool, lines: seq<string>)
    requires lines != [] && NoBlock(head, close, lines)
    ensures !Opens(head, close, lines) && NoBlock(head, close, lines[1..])
  {
    FirstWhereFinds(close, lines[1..]);
    forall i, j | 0 <= i < j < |lines[1..]| ensures head(lines[1..][i]) ==> !close(lines[1..][j]) {
      assert head(lines[i + 1]) ==> !close(lines[j + 1]);
    }
    forall l | l in lines[1..] ensures head(lines[0]) ==> !close(l) {
      var k :| 0 <= k < |lines[1..]| && lines[1..][k] == l;
      assert lines[k + 1] == l;
    }
  }

  /** A head and the first closing line behind it. */
  lemma OpenBlock(head: string -> bool, close: string -> bool, lines: seq<string>, k: nat)
    requires lines != [] && head(lines[0]) && FirstWhere(close, lines[1..]) == Some(k)
    ensures FirstBlock(head, close, lines) == Unlines([lines[0]] + lines[1..][..k + 1])
  {
    assert Opens(head, close, lines);
  }

  /** Where there is no block, there is none to extract and none to blank. */
  lemma {:induction false} NothingToBlank(head: string -> bool, close: string -> bool, lines: seq<string>)
    requires NoBlock(head, close, lines)
    ensures BlankBlocks(head, close, lines) == lines && FirstBlock(head, close, lines) == ""
  {
    if lines != [] {
      NoBlockOpens(head, close, lines);
      NothingToBlank(head, close, lines[1..]);
      assert [lines[0]] + lines[1..] == lines;
    }
  }

  /** Every line left is a line there was, or empty; and no block is left. */
  lemma {:induction false} BlankedHasNoBlock(head: string -> bool, close: string -> bool, lines: seq<string>)
    requires !head("") && !close("")
    ensures forall l | l in BlankBlocks(head, close, lines) :: l == "" || l in lines
    ensures NoBlock(head, close, BlankBlocks(head, close, lines))
    ensures lines != [] ==> BlankBlocks(head, close, lines) != []
    decreases |lines|
  {
    if lines != [] {
      FirstWhereFinds(close, lines[1..]);
      var rest := if Opens(head, close, lines) then lines[1..][FirstWhere(close, lines[1..]).value + 1..]
                  else lines[1..];
      var first, tail := if Opens(head, close, lines) then "" else lines[0], BlankBlocks(head, close, rest);
      BlankedHasNoBlock(head, close, rest);
      assert forall l | l in rest :: l in lines[1..] && l in lines;
      assert BlankBlocks(head, close, lines) == [first] + tail;
      OneLineMore(head, close, first, tail);
    }
  }

  lemma OneLineMore(head: string -> bool, close: string -> bool, first: string, tail: seq<string>)
    requires NoBlock(head, close, tail) && (head(first) ==> NoneWhere(close, tail))
    ensures NoBlock(head, close, [first] + tail)
  {
    var all := [first] + tail;
    forall i, j | 0 <= i < j < |all| ensures head(all[i]) ==> !close(all[j]) {
      if i > 0 {
        assert head(tail[i - 1]) ==> !close(tail[j - 1]);
      } else {
        assert tail[j - 1] in tail;
      }
    }
  }

  /** Lines behind that open and close nothing leave the blocks in front as they are. */
  lemma {:induction false} BlankBlocksTail(head: string -> bool, close: string -> bool, lines: seq<string>,
                                           tail: seq<string>)
    requires NoneWhere(head, tail) && NoneWhere(close, tail)
    ensures BlankBlocks(head, close, lines + tail) == BlankBlocks(head, close, lines) + tail
    decreases |lines|
  {
    if lines == [] {
      assert lines + tail == tail && [] + tail == tail;
      NothingToBlank(head, close, tail);
    } else {
      var rest := lines[1..];
      FrontOfBoth(lines, tail);
      FirstWhereTail(close, rest, tail);
      if Opens(head, close, lines) {
        var k := FirstWhere(close, rest).value + 1;
        BlankBlocksTail(head, close, rest[k..], tail);
        DropOfBoth(rest, tail, k);
        Assoc([""], BlankBlocks(head, close, rest[k..]), tail);
      } else {
        BlankBlocksTail(head, close, rest, tail);
        Assoc([lines[0]], BlankBlocks(head, close, rest), tail);
      }
    }
  }

  lemma {:induction false} FirstWhereTail(kind: string -> bool, lines: seq<string>, tail: seq<string>)
    requires NoneWhere(kind, tail)
    ensures FirstWhere(kind, lines + tail) == FirstWhere(kind, lines)
  {
    if lines == [] {
      assert lines + tail == tail;
      FirstWhereFinds(kind, tail);
    } else {
      FrontOfBoth(lines, tail);
      FirstWhereTail(kind, lines[1..], tail);
    }
  }

  lemma {:induction false} BlankWhereConcat(kind: string -> bool, a: seq<string>, b: seq<string>)
    ensures BlankWhere(kind, a + b) == BlankWhere(kind, a) + BlankWhere(kind, b)
  {
    if a == [] {
      assert a + b == b;
    } else {
      FrontOfBoth(a, b);
      BlankWhereConcat(kind, a[1..], b);
    }
  }

  lemma {:induction false} BlankedWhere(kind: string -> bool, lines: seq<string>)
    requires !kind("")
    ensures forall k | 0 <= k < |lines| :: BlankWhere(kind, lines)[k] == if kind(lines[k]) then "" else lines[k]
    ensures NoneWhere(kind, BlankWhere(kind, lines))
    ensures NoneWhere(kind, lines) ==> BlankWhere(kind, lines) == lines
  {
    if lines != [] {
      BlankedWhere(kind, lines[1..]);
      assert lines[0] in lines && forall l | l in lines[1..] :: l in lines;
      assert lines == [lines[0]] + lines[1..];
    }
  }

  /** Making lines empty opens no block. */
  lemma BlankedWhereHasNoBlock(kind: string -> bool, head: string -> bool, close: string -> bool, lines: seq<string>)
    requires NoBlock(head, close, lines) && !kind("") && !head("") && !close("")
    ensures NoBlock(head, close, BlankWhere(kind, lines))
  {
    BlankedWhere(kind, lines);
    var b := BlankWhere(kind, lines);
    forall i, j | 0 <= i < j < |b| ensures head(b[i]) ==> !close(b[j]) {
      assert head(lines[i]) ==> !close(lines[j]);
    }
  }

  lemma {:induction false} FirstCommentBehind(lines: seq<string>, tail: seq<string>)
    requires NoneWhere(IsComment, lines)
    ensures FirstComment(lines + tail) == FirstComment(tail)
  {
    if lines == [] {
      assert lines + tail == tail;
    } else {
      FrontOfBoth(lines, tail);
      assert lines[0] in lines && !IsComment(lines[0]);
      assert NoneWhere(IsComment, lines[1..]) by { assert forall l | l in lines[1..] :: l in lines; }
      FirstCommentBehind(lines[1..], tail);
    }
  }

  lemma {:induction false} NoFirstComment(lines: seq<string>)
    requires NoneWhere(IsComment, lines)
    ensures FirstComment(lines) == None
  {
    if lines != [] {
      assert lines[0] in lines;
      NoFirstComment(lines[1..]);
    }
  }

  lemma EmptyLine()
    ensures !IsComment("") && !ManifestHead("") && !CloseLine("")
  {
    assert Skip("") == "";
    assert SkipEat("<!--", Some("")) == None && SkipEat("-->", Some("")) == None;
  }

  lemma LinesOfText(s: string)
    ensures Unlines(Lines(s)) == s && LineText(Lines(s))
  {
    JoinSplit(s, '\n');
    SplitLacks(s, '\n');
  }

  lemma TextOfLines(lines: seq<string>)
    requires lines != [] && LineText(lines)
    ensures Lines(Unlines(lines)) == lines
  {
    SplitJoin(lines, '\n');
  }

  lemma {:induction false} UnlinesConcat(a: seq<string>, b: seq<string>)
    requires a != [] && b != []
    ensures Unlines(a + b) == Unlines(a) + "\n" + Unlines(b)
  {
    FrontOfBoth(a, b);
    if |a| > 1 {
      UnlinesConcat(a[1..], b);
    } else {
      assert a[1..] + b == b;
    }
  }

  /** Two lists of lines with the last of one and the first of the other made one. */
  function Glue(a: seq<string>, b: seq<string>): seq<string>
    requires a != [] && b != []
  {
    a[..|a| - 1] + [a[|a| - 1] + b[0]] + b[1..]
  }

  /** The lines of two texts put together. */
  lemma {:induction false} LinesGlue(p: string, q: string)
    ensures Lines(p + q) == Glue(Lines(p), Lines(q))
  {
    if p == "" {
      assert p + q == q && Lines(p) == [""];
      GlueNothing(Lines(q));
    } else {
      LinesGlue(p[1..], q);
      LinesStep(p[0], p[1..]);
      LinesStep(p[0], p[1..] + q);
      assert p == [p[0]] + p[1..] && p + q == [p[0]] + (p[1..] + q);
      GlueStep(p[0], Lines(p[1..]), Lines(q));
    }
  }

  /** The lines of a text with one character more in front. */
  function Grown(x: char, lines: seq<string>): seq<string>
    requires lines != []
  {
    if x == '\n' then [""] + lines else [[x] + lines[0]] + lines[1..]
  }

  lemma LinesStep(x: char, s: string)
    ensures Lines([x] + s) == Grown(x, Lines(s))
  {
    SplitStep(x, s, '\n');
  }

  lemma GlueStep(x: char, a: seq<string>, b: seq<string>)
    requires a != [] && b != []
    ensures Grown(x, Glue(a, b)) == Glue(Grown(x, a), b)
  {
    GlueFirst(x, a, b);
  }

  lemma GlueNothing(b: seq<string>)
    requires b != []
    ensures Glue([""], b) == b
  {
    assert "" + b[0] == b[0];
    assert Glue([""], b) == [""][..0] + [b[0]] + b[1..];
  }

  lemma GlueFirst(x: char, a: seq<string>, b: seq<string>)
    requires a != [] && b != []
    ensures [""] + Glue(a, b) == Glue([""] + a, b)
    ensures [[x] + Glue(a, b)[0]] + Glue(a, b)[1..] == Glue([[x] + a[0]] + a[1..], b)
  {
    if |a| == 1 {
      assert [x] + (a[0] + b[0]) == [x] + a[0] + b[0];
    }
  }

  /** Taking newlines off the end takes empty lines off the end. */
  lemma {:induction false} TrimTakesLines(s: string)
    ensures exists k | 0 < k <= |Lines(s)| :: Lines(TrimNewlines(s)) == Lines(s)[..k]
    ensures TrimNewlines(TrimNewlines(s)) == TrimNewlines(s)
  {
    if s != "" && s[|s| - 1] == '\n' {
      var t := s[..|s| - 1];
      TrimTakesLines(t);
      assert s == t + ['\n'] + "";
      SplitAround(t, "", '\n');
      assert Split("", '\n') == [""];
      var k :| 0 < k <= |Lines(t)| && Lines(TrimNewlines(t)) == Lines(t)[..k];
      assert Lines(s)[..k] == Lines(t)[..k];
    } else {
      assert Lines(s)[..|Lines(s)|] == Lines(s);
    }
  }

  lemma TrimTwo(s: string)
    ensures TrimNewlines(s + "\n\n") == TrimNewlines(s)
  {
    assert (s + "\n\n")[..|s| + 1] == s + "\n";
    assert (s + "\n")[..|s|] == s;
    assert TrimNewlines(s + "\n") == TrimNewlines(s);
  }

  lemma FrontLines(kind: string -> bool, head: string -> bool, close: string -> bool, lines: seq<string>, k: nat)
    requires NoneWhere(kind, lines) && NoBlock(head, close, lines) && k <= |lines|
    ensures NoneWhere(kind, lines[..k]) && NoBlock(head, close, lines[..k])
  {
    assert forall l | l in lines[..k] :: l in lines;
  }

  // Ink.

  lemma {:induction false} UnlinesInk(lines: seq<string>)
    ensures Ink(Unlines(lines)) == InkOf(lines)
  {
    if |lines| == 1 {
      assert InkOf(lines) == Ink(lines[0]) + InkOf([]);
    } else if lines != [] {
      UnlinesInk(lines[1..]);
      InkConcat(lines[0] + ['\n'], Unlines(lines[1..]));
      InkConcat(lines[0], ['\n']);
      assert Ink(['\n']) == 0;
    }
  }

  function InkOf(lines: seq<string>): nat {
    if lines == [] then 0 else Ink(lines[0]) + InkOf(lines[1..])
  }

  lemma {:induction false} InkOfConcat(a: seq<string>, b: seq<string>)
    ensures InkOf(a + b) == InkOf(a) + InkOf(b)
  {
    if a == [] {
      assert a + b == b;
    } else {
      FrontOfBoth(a, b);
      InkOfConcat(a[1..], b);
    }
  }

  lemma DropInk(lines: seq<string>, k: nat)
    requires k <= |lines|
    ensures InkOf(lines[k..]) <= InkOf(lines)
  {
    InkOfConcat(lines[..k], lines[k..]);
    Parts(lines, k);
  }

  lemma InkFront(line: string, lines: seq<string>)
    ensures InkOf([line] + lines) == Ink(line) + InkOf(lines)
  {
    assert ([line] + lines)[1..] == lines;
  }

  /** A block that becomes an empty line costs the ink of its head. */
  lemma BlockCostsInk(head: string -> bool, close: string -> bool, lines: seq<string>)
    requires lines != [] && Opens(head, close, lines) && Ink(lines[0]) > 0
    requires var rest := lines[1..][FirstWhere(close, lines[1..]).value + 1..];
      InkOf(BlankBlocks(head, close, rest)) <= InkOf(rest)
    ensures InkOf(BlankBlocks(head, close, lines)) < InkOf(lines)
  {
    var k := FirstWhere(close, lines[1..]).value + 1;
    DropInk(lines[1..], k);
    InkFront("", BlankBlocks(head, close, lines[1..][k..]));
  }

  /** A line that opens no block stays. */
  lemma LineStands(head: string -> bool, close: string -> bool, lines: seq<string>)
    requires lines != [] && !Opens(head, close, lines)
    ensures InkOf(BlankBlocks(head, close, lines)) == Ink(lines[0]) + InkOf(BlankBlocks(head, close, lines[1..]))
    ensures FirstBlock(head, close, lines) == FirstBlock(head, close, lines[1..])
    ensures BlankBlocks(head, close, lines[1..]) == lines[1..] ==> BlankBlocks(head, close, lines) == lines
  {
    InkFront(lines[0], BlankBlocks(head, close, lines[1..]));
    assert [lines[0]] + lines[1..] == lines;
  }

  predicate HeadsHaveInk(head: string -> bool, lines: seq<string>) { forall l | l in lines && head(l) :: Ink(l) > 0 }

  lemma DroppedHeads(head: string -> bool, lines: seq<string>, k: nat)
    requires HeadsHaveInk(head, lines) && k <= |lines|
    ensures HeadsHaveInk(head, lines[k..])
  {
    assert forall l | l in lines[k..] :: l in lines;
  }

  /** Blanking blocks costs ink, unless there is none. */
  lemma {:induction false} BlankBlocksInk(head: string -> bool, close: string -> bool, lines: seq<string>)
    requires HeadsHaveInk(head, lines)
    ensures InkOf(BlankBlocks(head, close, lines)) <= InkOf(lines)
    ensures InkOf(BlankBlocks(head, close, lines)) == InkOf(lines) ==>
      BlankBlocks(head, close, lines) == lines && FirstBlock(head, close, lines) == ""
    decreases |lines|
  {
    if lines != [] {
      assert lines[0] in lines;
      DroppedHeads(head, lines, 1);
      if Opens(head, close, lines) {
        var k := FirstWhere(close, lines[1..]).value + 1;
        DroppedHeads(head, lines[1..], k);
        BlankBlocksInk(head, close, lines[1..][k..]);
        BlockCostsInk(head, close, lines);
      } else {
        BlankBlocksInk(head, close, lines[1..]);
        LineStands(head, close, lines);
      }
    }
  }

  lemma {:induction false} BlankWhereInk(kind: string -> bool, lines: seq<string>)
    ensures InkOf(BlankWhere(kind, lines)) <= InkOf(lines)
  {
    if lines != [] {
      BlankWhereInk(kind, lines[1..]);
      InkOfConcat([if kind(lines[0]) then "" else lines[0]], BlankWhere(kind, lines[1..]));
    }
  }

  lemma HeadHasInk(line: string)
    requires ManifestHead(line)
    ensures Ink(line) > 0
  {
    SkipEatInk("<!--", Some(line));
    assert Ink("<!--") > 0;
  }

  lemma {:induction false} TrimInk(s: string)
    ensures Ink(TrimNewlines(s)) == Ink(s)
  {
    if s != "" && s[|s| - 1] == '\n' {
      var t := s[..|s| - 1];
      TrimInk(t);
      InkConcat(t, ['\n']);
      assert s == t + ['\n'] && Ink(['\n']) == 0;
    }
  }
}
