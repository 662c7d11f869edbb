/** The leaves that search the stored text of a tag list: what they find, and when it is what is meant. */
module FilterSearch {
  import opened Options
  import opened Sql
  import opened FilterTree
  import opened FilterLike
  import opened FilterTags
  import opened FilterClauses
  import opened FilterMeaning
  import opened FilterLeaves

  function Found(mode: Option<TextMode>, v: string, tags: Option<seq<string>>): Truth {
    LikeTruth(Pattern(mode, v), tags)
  }

  /** A tag or one below it. */
  function TagFound(v: string, tags: Option<seq<string>>): Truth {
    Or3(Found(None, v, tags), Found(Some(Prefix), v + "/", tags))
  }

  function TextOf(v: ValueExpr): string { if v.Lit? && v.value.Text? then v.value.s else "" }

  function AnyFound(values: seq<ValueExpr>, tags: Option<seq<string>>): Truth {
    if values == [] then False else Or3(TagFound(TextOf(values[0]), tags), AnyFound(values[1..], tags))
  }

  function ElementFound(test: Element, tags: Option<seq<string>>): Truth {
    match test
    case Equals(v) => Found(None, v, tags)
    case Matches(Prefix, v) => Or3(Found(None, v, tags), Found(Some(Prefix), v, tags))
    case Matches(mode, v) => Found(Some(mode), v, tags)
  }

  function ExistsFound(test: Element, tags: Option<seq<string>>): Truth {
    And3(ElementFound(test, tags), And3(Of(tags.Some?), if tags.None? then Null else Of(tags.value != [])))
  }

  /** The list a leaf searches, and what it finds. */
  function Searched(schema: Schema, st: Stored, c: Condition): Option<seq<string>>
    requires SearchesTags(c)
  {
    match c
    case In(_, _) => st.list(Resolved(schema, "tag"))
    case ElementIn(_, list) => st.list(list)
    case Comprehension(_, source, _) => st.list(source)
  }

  function SearchTruth(c: Condition, tags: Option<seq<string>>): Truth
    requires SearchesTags(c)
  {
    match c
    case In(_, values) => AnyFound(values, tags)
    case ElementIn(element, _) => Found(None, TextOf(element), tags)
    case Comprehension(_, _, test) => ExistsFound(test, tags)
  }

  // A database that runs a stored row finds this.

  lemma SearchRuns(db: Database, f: Folding, json: string, mode: Option<TextMode>, v: string, tags: Option<seq<string>>)
    requires RunsList(db, f, json, tags)
    ensures ClauseValue(db, LikeClause(json, Pattern(mode, v))) == Found(mode, v, tags)
  {
  }

  lemma Patterns(v: string)
    ensures Quoted(v) == Pattern(None, v)
    ensures "%\"" + v + "%" == Pattern(Some(Prefix), v) && "%" + v + "\"%" == Pattern(Some(Suffix), v)
    ensures "%\"" + v + "/%" == Pattern(Some(Prefix), v + "/")
  {
    assert "%\"" == "%" + "\"" && "\"%" == "\"" + "%" && "/%" == "/" + "%";
    Regrouped("\"", v, "\"");
    Regrouped("\"", v, "");
    Regrouped("", v, "\"");
    Regrouped("\"", v, "/");
    assert "\"" + (v + "/") == "\"" + v + "/";
  }

  lemma Regrouped(a: string, v: string, b: string)
    ensures ("%" + a) + v + (b + "%") == "%" + (a + v + b) + "%"
    ensures a == "" ==> a + v + b == v + b
    ensures b == "" ==> a + v + b == a + v && b + "%" == "%"
  {
  }

  lemma TwoMean(db: Database, joint: Token, a: Clause, b: Clause)
    ensures ClauseValue(db, Chain(joint, [a, b])) == Combine(joint, ClauseValue(db, a), ClauseValue(db, b))
  {
    assert [a, b][1..] == [b];
    assert ChainValue(db, joint, [b]) == ClauseValue(db, b);
  }

  lemma OneMore(db: Database, p: Clause, rest: seq<Clause>)
    ensures ChainValue(db, Or, [p] + rest) == Or3(ClauseValue(db, p), ChainValue(db, Or, rest))
  {
    assert ([p] + rest)[1..] == rest;
  }

  lemma TagRuns(db: Database, f: Folding, json: string, v: string, tags: Option<seq<string>>)
    requires RunsList(db, f, json, tags)
    ensures ClauseValue(db, TagClause(json, v)) == TagFound(v, tags)
  {
    var whole, below := LikeClause(json, Quoted(v)), LikeClause(json, "%\"" + v + "/%");
    Patterns(v);
    SearchRuns(db, f, json, None, v, tags);
    SearchRuns(db, f, json, Some(Prefix), v + "/", tags);
    TwoMean(db, Or, whole, below);
  }

  lemma {:induction false} TagsRun(db: Database, f: Folding, json: string, values: seq<ValueExpr>,
                                   tags: Option<seq<string>>)
    requires RunsList(db, f, json, tags) && TagClauses(json, values).Some?
    ensures |TagClauses(json, values).value| == |values|
    ensures ChainValue(db, Or, TagClauses(json, values).value) == AnyFound(values, tags)
  {
    if values != [] {
      var parts, rest := TagClauses(json, values).value, TagClauses(json, values[1..]).value;
      TagsRun(db, f, json, values[1..], tags);
      TagRuns(db, f, json, TextOf(values[0]), tags);
      OneMore(db, TagClause(json, TextOf(values[0])), rest);
      assert parts == [TagClause(json, TextOf(values[0]))] + rest;
    }
  }

  lemma ElementRuns(db: Database, f: Folding, json: string, test: Element, tags: Option<seq<string>>)
    requires RunsList(db, f, json, tags)
    ensures ClauseValue(db, AnyTag(json, test)) == ElementFound(test, tags)
  {
    var v := test.value;
    Patterns(v);
    match test {
      case Equals(_) => SearchRuns(db, f, json, None, v, tags);
      case Matches(Prefix, _) =>
        SearchRuns(db, f, json, None, v, tags);
        SearchRuns(db, f, json, Some(Prefix), v, tags);
        TwoMean(db, Or, LikeClause(json, Quoted(v)), LikeClause(json, "%\"" + v + "%"));
      case Matches(mode, _) => SearchRuns(db, f, json, Some(mode), v, tags);
    }
  }

  lemma ExistsRuns(db: Database, f: Folding, json: string, test: Element, tags: Option<seq<string>>)
    requires RunsList(db, f, json, tags)
    ensures ClauseValue(db, Chain(And, [AnyTag(json, test), Present(json), Filled(json)])) == ExistsFound(test, tags)
  {
    ElementRuns(db, f, json, test, tags);
    ListAtoms(db, f, json, test, tags);
    ThreeMean(db, AnyTag(json, test), Present(json), Filled(json));
  }

  lemma TagLeafRuns(db: Database, schema: Schema, st: Stored, values: seq<ValueExpr>)
    requires Runs(db, schema, st) && Leaf(schema, In(FieldRef("tag"), values)).Some?
    ensures ClauseValue(db, Leaf(schema, In(FieldRef("tag"), values)).value)
        == AnyFound(values, st.list(Resolved(schema, "tag")))
  {
    var name, tags := Resolved(schema, "tag"), st.list(Resolved(schema, "tag"));
    LeafOfIn(schema, FieldRef("tag"), values);
    RunsKind(db, schema, st, name);
    var parts := TagClauses(schema[name].json, values).value;
    LeafOfTags(schema, values, parts);
    TagsRun(db, st.fold, schema[name].json, values, tags);
  }

  lemma ElementLeafRuns(db: Database, schema: Schema, st: Stored, element: ValueExpr, list: string)
    requires Runs(db, schema, st) && Leaf(schema, ElementIn(element, list)).Some?
    ensures ClauseValue(db, Leaf(schema, ElementIn(element, list)).value) == Found(None, TextOf(element), st.list(list))
  {
    LeafOfElement(schema, element, list);
    ElementClauseRuns(db, schema, st, element, list);
  }

  lemma ElementClauseRuns(db: Database, schema: Schema, st: Stored, element: ValueExpr, list: string)
    requires Runs(db, schema, st) && ElementInClause(schema, element, list).Some?
    ensures ClauseValue(db, ElementInClause(schema, element, list).value) == Found(None, TextOf(element), st.list(list))
  {
    RunsKind(db, schema, st, list);
    Patterns(TextOf(element));
    SearchRuns(db, st.fold, schema[list].json, None, TextOf(element), st.list(list));
  }

  lemma ExistsLeafRuns(db: Database, schema: Schema, st: Stored, source: string, test: Element)
    requires Runs(db, schema, st) && Leaf(schema, Comprehension(Exists, source, test)).Some?
    ensures ClauseValue(db, Leaf(schema, Comprehension(Exists, source, test)).value)
         == ExistsFound(test, st.list(source))
  {
    LeafOfMacro(schema, Exists, source, test);
    RunsKind(db, schema, st, source);
    ExistsRuns(db, st.fold, schema[source].json, test, st.list(source));
  }

  /** The text of a leaf that searches a list has the value of what is found in the stored text. */
  lemma SearchLeafRuns(db: Database, schema: Schema, st: Stored, c: Condition)
    requires Runs(db, schema, st) && SearchesTags(c) && Leaf(schema, c).Some?
    ensures ClauseValue(db, Leaf(schema, c).value) == SearchTruth(c, Searched(schema, st, c))
  {
    match c {
      case In(_, values) => TagLeafRuns(db, schema, st, values);
      case ElementIn(element, list) => ElementLeafRuns(db, schema, st, element, list);
      case Comprehension(_, source, test) => ExistsLeafRuns(db, schema, st, source, test);
    }
  }

  // What is found is what is meant.

  /** A text that LIKE and JSON take as it is. */
  predicate PlainText(v: string) { Clean(v) && Unspecial(v) }

  /** Where nothing is meant, something looks like what is looked for: the punctuation of the list, or a
      tag that differs in case. */
  ghost predicate Alike(test: Element, tags: seq<string>) {
    match test
    case Equals(v) => Punctuation(None, v, tags) || exists t | t in tags :: Lowered(t) == Lowered(v)
    case Matches(mode, v) => Punctuation(Some(mode), v, tags)
  }

  ghost predicate AlikeBelow(v: string, tags: seq<string>) {
    Alike(Equals(v), tags) || exists t | t in tags :: Lowered(v + "/") <= Lowered(t)
  }

  lemma WholeIsFound(v: string, tags: seq<string>)
    requires PlainText(v) && AllClean(tags)
    ensures Found(None, v, Some(tags)) == Of(Alike(Equals(v), tags))
  {
    if tags == [] {
      EmptyFindsNothing(None, v);
    } else {
      SearchFinds(None, v, tags);
      assert Met(None, v, tags) <==> exists t | t in tags :: Lowered(t) == Lowered(v);
    }
  }

  /** A membership is found exactly when it holds or nothing looks like it, in a list that is there. */
  lemma ElementIsFound(v: string, tags: Option<seq<string>>)
    requires PlainText(v) && AllClean(Listed(tags))
    ensures Found(None, v, tags) == Of(v in Listed(tags))
      <==> tags.Some? && (v in tags.value || !Alike(Equals(v), tags.value))
  {
    if tags.Some? { WholeIsFound(v, tags.value); }
  }

  lemma ChildIsFound(v: string, tags: seq<string>)
    requires PlainText(v) && AllClean(tags)
    ensures TagFound(v, Some(tags)) == Of(AlikeBelow(v, tags))
  {
    WholeIsFound(v, tags);
    if tags == [] {
      EmptyFindsNothing(Some(Prefix), v + "/");
    } else {
      SearchFinds(Some(Prefix), v + "/", tags);
      assert |v + "/"| > 0 && (v + "/")[|v|] == '/';
      assert forall t | t in tags :: Meets(Some(Prefix), v + "/", t) <==> Lowered(v + "/") <= Lowered(t);
    }
  }

  ghost predicate AnyAlike(values: seq<ValueExpr>, tags: seq<string>) {
    exists v | v in values :: AlikeBelow(TextOf(v), tags)
  }

  lemma {:induction false} AnyIsFound(values: seq<ValueExpr>, tags: seq<string>)
    requires (forall v | v in values :: PlainText(TextOf(v))) && AllClean(tags)
    ensures AnyFound(values, Some(tags)) == Of(AnyAlike(values, tags))
  {
    if values != [] {
      assert forall v | v in values[1..] :: v in values;
      ChildIsFound(TextOf(values[0]), tags);
      AnyIsFound(values[1..], tags);
      AlikeSplits(values, tags);
    }
  }

  lemma AlikeSplits(values: seq<ValueExpr>, tags: seq<string>)
    requires values != []
    ensures AnyAlike(values, tags) <==> AlikeBelow(TextOf(values[0]), tags) || AnyAlike(values[1..], tags)
  {
    assert values == [values[0]] + values[1..];
    if v :| v in values && AlikeBelow(TextOf(v), tags) { assert v == values[0] || v in values[1..]; }
    if v :| v in values[1..] && AlikeBelow(TextOf(v), tags) { assert v in values; }
  }

  lemma {:induction false} NoneIsUnknown(values: seq<ValueExpr>)
    ensures AnyFound(values, None) == if values == [] then False else Null
  {
    if values != [] { NoneIsUnknown(values[1..]); }
  }

  /** What is meant looks like itself. */
  lemma MeantIsAlike(values: seq<ValueExpr>, row: Row, tags: seq<string>)
    requires forall v | v in values :: v.Lit? && v.value.Text?
    ensures AnyUnder(tags, ValuesOf(row, values)) ==> AnyAlike(values, tags)
  {
    if x :| x in ValuesOf(row, values) && Under(tags, x) {
      var v := WhoseValue(row, values, x);
      var t :| t in tags && (t == x.s || x.s + "/" <= t);
      if x.s + "/" <= t { LoweredPrefix(x.s + "/", t); }
      assert AlikeBelow(TextOf(v), tags);
    }
  }

  lemma LoweredPrefix(a: string, t: string)
    requires a <= t
    ensures Lowered(a) <= Lowered(t)
  {
    LoweredConcat(a, t[|a|..]);
    assert t == a + t[|a|..];
  }

  lemma {:induction false} WhoseValue(row: Row, values: seq<ValueExpr>, x: Literal) returns (v: ValueExpr)
    requires x in ValuesOf(row, values) && forall v | v in values :: v.Lit?
    ensures v in values && v.value == x
  {
    if ValueOf(row, values[0]) == x {
      v := values[0];
    } else {
      v := WhoseValue(row, values[1..], x);
    }
  }

  /** A tag in a list of values is found exactly when it holds or nothing looks like it. */
  lemma TagsAreFound(row: Row, values: seq<ValueExpr>, tags: Option<seq<string>>)
    requires forall v | v in values :: v.Lit? && v.value.Text? && PlainText(v.value.s)
    requires AllClean(Listed(tags))
    ensures var meant := AnyUnder(Listed(tags), ValuesOf(row, values));
      AnyFound(values, tags) == Of(meant) <==>
        values == [] || (tags.Some? && (meant || !AnyAlike(values, tags.value)))
  {
    if tags.Some? {
      AnyIsFound(values, tags.value);
      MeantIsAlike(values, row, tags.value);
    } else {
      NoneIsUnknown(values);
    }
  }

  /** The folding of these texts is that of ASCII. */
  ghost predicate FoldsPlainly(f: Folding, test: Element, tags: seq<string>) {
    test.Matches? ==> Fold(f, test.value) == Lowered(test.value) && forall t | t in tags :: Fold(f, t) == Lowered(t)
  }

  lemma SomeIsFound(f: Folding, test: Element, tags: seq<string>)
    requires PlainText(test.value) && AllClean(tags) && FoldsPlainly(f, test, tags) && tags != []
    ensures ElementFound(test, Some(tags)) == Of(MacroHolds(f, Exists, tags, test) || Alike(test, tags))
  {
    if test.Equals? {
      WholeIsFound(test.value, tags);
    } else {
      PartIsFound(f, test, tags);
      if test.mode == Prefix { WholeIsStart(test.value, tags); }
    }
  }

  lemma PartIsFound(f: Folding, test: Element, tags: seq<string>)
    requires test.Matches? && PlainText(test.value) && AllClean(tags) && FoldsPlainly(f, test, tags) && tags != []
    ensures Found(Some(test.mode), test.value, Some(tags)) == Of(MacroHolds(f, Exists, tags, test) || Alike(test, tags))
  {
    SearchFinds(Some(test.mode), test.value, tags);
    assert forall t | t in tags :: Meets(Some(test.mode), test.value, t) <==> ElementHolds(f, test, t);
  }

  /** What is found as a whole tag is found as the start of one. */
  lemma WholeIsStart(v: string, tags: seq<string>)
    requires PlainText(v) && AllClean(tags) && tags != []
    ensures Found(None, v, Some(tags)) == True ==> Found(Some(Prefix), v, Some(tags)) == True
  {
    SearchFinds(None, v, tags);
    SearchFinds(Some(Prefix), v, tags);
    assert forall t | t in tags :: Meets(None, v, t) ==> Meets(Some(Prefix), v, t);
  }

  /** tags.exists is found exactly when it holds or nothing looks like it, whether the list is there or not. */
  lemma ExistsIsFound(f: Folding, test: Element, tags: Option<seq<string>>)
    requires PlainText(test.value) && AllClean(Listed(tags)) && FoldsPlainly(f, test, Listed(tags))
    ensures var meant := MacroHolds(f, Exists, Listed(tags), test);
      ExistsFound(test, tags) == Of(meant) <==> meant || !Alike(test, Listed(tags))
  {
    if tags.Some? && tags.value != [] { SomeIsFound(f, test, tags.value); }
  }

  // The leaves.

  /** What a leaf looks for and the tags it searches are texts that LIKE and JSON take as they are. */
  ghost predicate PlainSearch(schema: Schema, st: Stored, c: Condition)
    requires SearchesTags(c)
  {
    var tags := Listed(Searched(schema, st, c));
    && AllClean(tags)
    && match c
       case In(_, values) => forall v | v in values :: PlainText(TextOf(v))
       case ElementIn(element, _) => PlainText(TextOf(element))
       case Comprehension(_, _, test) => PlainText(test.value) && FoldsPlainly(st.fold, test, tags)
  }

  /** Something in the list looks like what a leaf looks for. */
  ghost predicate LooksAlike(c: Condition, tags: seq<string>)
    requires SearchesTags(c)
  {
    match c
    case In(_, values) => AnyAlike(values, tags)
    case ElementIn(element, _) => Alike(Equals(TextOf(element)), tags)
    case Comprehension(_, _, test) => Alike(test, tags)
  }

  /** A leaf that says nothing of a list that is not there. */
  predicate NeedsList(c: Condition) {
    c.ElementIn? || (c.In? && c.values != [])
  }
}
