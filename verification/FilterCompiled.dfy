/** From a filter in CEL to the rows its statement selects. */
module FilterCompiled {
  import opened Options
  import opened Sql
  import opened FilterTree
  import opened FilterLike
  import opened FilterClauses
  import opened FilterRender
  import opened FilterParser
  import opened FilterMeaning
  import opened FilterLeaves
  import opened FilterSearch

  /** Text search is only asked of fields that have it. */
  predicate Asks(schema: Schema, c: Condition) {
    match c
    case Negation(child) => Asks(schema, child)
    case Logical(_, left, right) => Asks(schema, left) && Asks(schema, right)
    case TextMatch(column, _, _) => column in schema && schema[column].supportsContains
    case _ => true
  }

  /** No comparison of the tree asks for a has_task_list whose key is absent. */
  predicate NeverAbsent(schema: Schema, st: Stored, c: Condition) {
    match c
    case Negation(child) => NeverAbsent(schema, st, child)
    case Logical(_, left, right) => NeverAbsent(schema, st, left) && NeverAbsent(schema, st, right)
    case Comparison(lhs, _, _) => !AsksAbsent(schema, st, lhs)
    case _ => true
  }

  /** The leaves of the tree that search the stored text of a list find what is meant. */
  ghost predicate NeverMistaken(schema: Schema, st: Stored, c: Condition) {
    match c
    case Negation(child) => NeverMistaken(schema, st, child)
    case Logical(_, left, right) => NeverMistaken(schema, st, left) && NeverMistaken(schema, st, right)
    case Constant(_) => true
    case _ => SearchesTags(c) ==> SearchTruth(c, Searched(schema, st, c)) == ConditionTruth(SeenRow(schema, st), c)
  }

  /** The list is there, where it has to be, and what is meant holds or nothing looks like it. */
  ghost predicate Unmistakable(schema: Schema, st: Stored, c: Condition)
    requires SearchesTags(c)
  {
    var tags := Searched(schema, st, c);
    && (NeedsList(c) ==> tags.Some?)
    && (ConditionTruth(SeenRow(schema, st), c) == True || !LooksAlike(c, Listed(tags)))
  }

  lemma TagsExact(schema: Schema, st: Stored, values: seq<ValueExpr>, truth: Truth)
    requires Leaf(schema, In(FieldRef("tag"), values)).Some? && PlainSearch(schema, st, In(FieldRef("tag"), values))
    requires truth == ConditionTruth(SeenRow(schema, st), In(FieldRef("tag"), values))
    ensures var tags := st.list(Resolved(schema, "tag"));
      AnyFound(values, tags) == truth <==>
        (values != [] ==> tags.Some?) && (truth == True || !AnyAlike(values, Listed(tags)))
  {
    SeenTags(schema, st, values);
    LeafTexts(schema, values);
    TagsAreFound(SeenRow(schema, st), values, st.list(Resolved(schema, "tag")));
  }

  lemma ElementExact(schema: Schema, st: Stored, element: ValueExpr, list: string, truth: Truth)
    requires Leaf(schema, ElementIn(element, list)).Some? && PlainSearch(schema, st, ElementIn(element, list))
    requires truth == ConditionTruth(SeenRow(schema, st), ElementIn(element, list))
    ensures var v, tags := TextOf(element), st.list(list);
      Found(None, v, tags) == truth <==> tags.Some? && (truth == True || !Alike(Equals(v), Listed(tags)))
  {
    SeenElement(schema, st, element, list);
    ElementIsFound(TextOf(element), st.list(list));
  }

  lemma ExistsExact(schema: Schema, st: Stored, source: string, test: Element, truth: Truth)
    requires Leaf(schema, Comprehension(Exists, source, test)).Some?
    requires PlainSearch(schema, st, Comprehension(Exists, source, test))
    requires truth == ConditionTruth(SeenRow(schema, st), Comprehension(Exists, source, test))
    ensures ExistsFound(test, st.list(source)) == truth <==> truth == True || !Alike(test, Listed(st.list(source)))
  {
    SeenMacro(schema, st, source, test);
    ExistsIsFound(st.fold, test, st.list(source));
  }

  /** What a leaf finds is what is meant, by the kind of the leaf. */
  lemma FoundIsMeant(schema: Schema, st: Stored, c: Condition, truth: Truth)
    requires SearchesTags(c) && Leaf(schema, c).Some? && PlainSearch(schema, st, c)
    requires truth == ConditionTruth(SeenRow(schema, st), c)
    ensures var tags := Searched(schema, st, c);
      SearchTruth(c, tags) == truth <==>
        (NeedsList(c) ==> tags.Some?) && (truth == True || !LooksAlike(c, Listed(tags)))
  {
    match c {
      case In(_, values) => TagsExact(schema, st, values, truth);
      case ElementIn(element, list) => ElementExact(schema, st, element, list, truth);
      case Comprehension(_, source, test) => ExistsExact(schema, st, source, test, truth);
    }
  }

  /** In plain texts a search finds what is meant exactly when the list is there, where it has to be, and
      what is meant holds or nothing looks like it: no tag that differs in case only, and not the
      punctuation of the list. */
  lemma SearchIsExact(schema: Schema, st: Stored, c: Condition)
    requires SearchesTags(c) && Leaf(schema, c).Some? && PlainSearch(schema, st, c)
    ensures NeverMistaken(schema, st, c) <==> Unmistakable(schema, st, c)
  {
    FoundIsMeant(schema, st, c, ConditionTruth(SeenRow(schema, st), c));
  }

  lemma SeenTags(schema: Schema, st: Stored, values: seq<ValueExpr>)
    ensures ConditionTruth(SeenRow(schema, st), In(FieldRef("tag"), values))
         == Of(AnyUnder(Listed(st.list(Resolved(schema, "tag"))), ValuesOf(SeenRow(schema, st), values)))
  {
    InMeans(SeenRow(schema, st), "tag", values);
  }

  lemma SeenElement(schema: Schema, st: Stored, element: ValueExpr, list: string)
    requires Leaf(schema, ElementIn(element, list)).Some?
    ensures ConditionTruth(SeenRow(schema, st), ElementIn(element, list))
        == Of(TextOf(element) in Listed(st.list(list)))
  {
    LeafOfElement(schema, element, list);
    SeenList(schema, st, list);
    ElementMeans(SeenRow(schema, st), element, list);
  }

  lemma SeenMacro(schema: Schema, st: Stored, source: string, test: Element)
    requires Leaf(schema, Comprehension(Exists, source, test)).Some?
    ensures ConditionTruth(SeenRow(schema, st), Comprehension(Exists, source, test))
         == Of(MacroHolds(st.fold, Exists, Listed(st.list(source)), test))
  {
    LeafOfMacro(schema, Exists, source, test);
    SourceIsList(schema, Exists, source, test);
    SeenList(schema, st, source);
    MacroTruth(SeenRow(schema, st), Exists, source, test);
  }

  lemma LeafTexts(schema: Schema, values: seq<ValueExpr>)
    requires Leaf(schema, In(FieldRef("tag"), values)).Some?
    ensures forall v | v in values :: v.Lit? && v.value.Text?
  {
    TagTexts(ResolveAlias(schema, "tag").value.json, values);
  }

  lemma {:induction false} TagTexts(list: string, values: seq<ValueExpr>)
    requires TagClauses(list, values).Some?
    ensures forall v | v in values :: v.Lit? && v.value.Text?
  {
    if values != [] { TagTexts(list, values[1..]); }
  }

  lemma ComparisonLeaf(db: Database, schema: Schema, st: Stored, lhs: ValueExpr, op: Operator, rhs: ValueExpr)
    requires Runs(db, schema, st) && Leaf(schema, Comparison(lhs, op, rhs)).Some?
    ensures ClauseValue(db, Leaf(schema, Comparison(lhs, op, rhs)).value)
        == ConditionTruth(SeenRow(schema, st), Comparison(lhs, op, rhs))
      <==> !AsksAbsent(schema, st, lhs)
  {
    ComparisonClauseMeans(db, schema, st, lhs, op, rhs);
    BuiltIsTruth(SeenRow(schema, st), Comparison(lhs, op, rhs));
  }

  lemma InLeaf(db: Database, schema: Schema, st: Stored, name: string, values: seq<ValueExpr>)
    requires Runs(db, schema, st) && name != "tag" && Leaf(schema, In(FieldRef(name), values)).Some?
    ensures ClauseValue(db, Leaf(schema, In(FieldRef(name), values)).value)
        == ConditionTruth(SeenRow(schema, st), In(FieldRef(name), values))
  {
    LeafOfIn(schema, FieldRef(name), values);
    ScalarInMeans(db, schema, st, name, values);
    InMeans(SeenRow(schema, st), name, values);
    InScalarMeans(SeenRow(schema, st), name, ValuesOf(SeenRow(schema, st), values));
  }

  lemma TextLeaf(db: Database, schema: Schema, st: Stored, name: string, mode: TextMode, text: string)
    requires Runs(db, schema, st) && name in schema && schema[name].supportsContains
    requires Leaf(schema, TextMatch(name, mode, text)).Some?
    ensures ClauseValue(db, Leaf(schema, TextMatch(name, mode, text)).value)
        == ConditionTruth(SeenRow(schema, st), TextMatch(name, mode, text))
  {
    TextMatchMeans(db, schema, st, name, mode, text);
    SeenText(schema, st, name);
    TextMatchTruth(SeenRow(schema, st), name, mode, text);
    LeafOfText(schema, name, mode, text);
  }

  lemma MacroLeaf(db: Database, schema: Schema, st: Stored, macro: Macro, source: string, test: Element)
    requires Runs(db, schema, st) && macro != Exists && Leaf(schema, Comprehension(macro, source, test)).Some?
    ensures ClauseValue(db, Leaf(schema, Comprehension(macro, source, test)).value)
         == ConditionTruth(SeenRow(schema, st), Comprehension(macro, source, test))
  {
    LeafOfMacro(schema, macro, source, test);
    FilterLeaves.MacroMeans(db, schema, st, macro, source, test);
    SourceIsList(schema, macro, source, test);
    SeenList(schema, st, source);
    MacroTruth(SeenRow(schema, st), macro, source, test);
  }

  lemma SourceIsList(schema: Schema, macro: Macro, source: string, test: Element)
    requires ComprehensionClause(schema, macro, source, test).Some?
    ensures source in schema && schema[source].kind == JsonList
  {
  }

  lemma PredicateLeaf(db: Database, schema: Schema, st: Stored, name: string)
    requires Runs(db, schema, st) && Leaf(schema, FieldPredicate(name)).Some?
    ensures ClauseValue(db, Leaf(schema, FieldPredicate(name)).value)
        == ConditionTruth(SeenRow(schema, st), FieldPredicate(name))
  {
    LeafOfPredicate(schema, name);
    PredicateMeans(db, schema, name, st);
  }

  lemma RegexLeaf(db: Database, schema: Schema, st: Stored, subject: string, pattern: string)
    requires Runs(db, schema, st) && Leaf(schema, Regex(subject, pattern)).Some?
    ensures ClauseValue(db, Leaf(schema, Regex(subject, pattern)).value)
        == ConditionTruth(SeenRow(schema, st), Regex(subject, pattern))
  {
    LeafOfRegex(schema, subject, pattern);
    RunsRegex(db, schema, st, subject, pattern);
    RegexMeans(SeenRow(schema, st), subject, pattern);
    assert SeenRow(schema, st).matches == st.matches;
  }

  lemma RegexMeans(row: Row, subject: string, pattern: string)
    ensures ConditionTruth(row, Regex(subject, pattern)) == row.matches(subject, pattern)
  {
  }

  lemma OtherLeaf(db: Database, schema: Schema, st: Stored, c: Condition)
    requires Runs(db, schema, st) && (c.FieldPredicate? || c.Regex?) && Leaf(schema, c).Some?
    ensures ClauseValue(db, Leaf(schema, c).value) == ConditionTruth(SeenRow(schema, st), c)
  {
    match c {
      case FieldPredicate(name) => PredicateLeaf(db, schema, st, name);
      case Regex(subject, pattern) => RegexLeaf(db, schema, st, subject, pattern);
    }
  }

  /** The text of a leaf has the leaf's value on every stored row, except that comparing has_task_list is
      unknown exactly when its key is absent, and that a search may find something else. */
  lemma LeafMeans(db: Database, schema: Schema, st: Stored, c: Condition)
    requires Runs(db, schema, st) && IsLeaf(c) && Leaf(schema, c).Some? && Asks(schema, c)
    ensures ClauseValue(db, Leaf(schema, c).value) == ConditionTruth(SeenRow(schema, st), c)
      <==> NeverAbsent(schema, st, c) && NeverMistaken(schema, st, c)
  {
    if SearchesTags(c) {
      SearchLeafRuns(db, schema, st, c);
    } else {
      match c {
        case Comparison(lhs, op, rhs) => ComparisonLeaf(db, schema, st, lhs, op, rhs);
        case In(item, values) => InLeaf(db, schema, st, item.name, values);
        case TextMatch(name, mode, text) => TextLeaf(db, schema, st, name, mode, text);
        case Comprehension(macro, source, test) => MacroLeaf(db, schema, st, macro, source, test);
        case _ => OtherLeaf(db, schema, st, c);
      }
    }
  }

  lemma {:induction false} TreeAgrees(db: Database, schema: Schema, st: Stored, c: Condition)
    requires Runs(db, schema, st) && Asks(schema, c)
    requires NeverAbsent(schema, st, c) && NeverMistaken(schema, st, c)
    ensures LeavesAgree(db, schema, SeenRow(schema, st), c)
  {
    match c {
      case Constant(_) =>
      case Negation(child) => TreeAgrees(db, schema, st, child);
      case Logical(_, left, right) =>
        TreeAgrees(db, schema, st, left);
        TreeAgrees(db, schema, st, right);
      case _ => if Leaf(schema, c).Some? { LeafMeans(db, schema, st, c); }
    }
  }

  // The parser asks for text search only where there is one.

  lemma {:induction false} CombinedAsk(schema: Schema, op: Connective, first: Condition, field: string,
                                       others: seq<string>)
    requires Asks(schema, first)
    ensures Asks(schema, CombineFrom(op, first, Memberships(field, others)))
    decreases others
  {
    if others != [] {
      var next := Logical(op, first, Membership(field, others[0]));
      assert Memberships(field, others)[1..] == Memberships(field, others[1..]);
      CombinedAsk(schema, op, next, field, others[1..]);
    }
  }

  lemma SetAsks(schema: Schema, operation: SetOperation, field: string, values: seq<string>)
    ensures Asks(schema, SetCondition(operation, field, values))
  {
    var d := Distinct(values, {});
    if values != [] {
      CombinedAsk(schema, Conj, Membership(field, values[0]), field, values[1..]);
      CombinedAsk(schema, Disj, Membership(field, values[0]), field, values[1..]);
    }
    if d != [] { CombinedAsk(schema, Conj, Membership(field, d[0]), field, d[1..]); }
  }

  lemma {:induction false} BuiltAsks(pc: Context, e: Expr)
    requires BuildCondition(pc, e).Some?
    ensures Asks(pc.schema, BuildCondition(pc, e).value)
  {
    match e {
      case AndExpr(left, right) => BuiltAsks(pc, left); BuiltAsks(pc, right);
      case OrExpr(left, right) => BuiltAsks(pc, left); BuiltAsks(pc, right);
      case NotExpr(child) => BuiltAsks(pc, child);
      case SetExpr(operation, field, members) => SetAsks(pc.schema, operation, field, Strings(members).value);
      case _ =>
    }
  }

  /** The lists of the row hold no duplicates. */
  ghost predicate KeptLists(schema: Schema, st: Stored) {
    forall name | name in schema && schema[name].kind == JsonList :: NoDuplicates(Listed(st.list(name)))
  }

  lemma SeenRowIsKept(schema: Schema, st: Stored)
    requires KeptLists(schema, st)
    ensures Kept(schema, SeenRow(schema, st))
  {
    forall name | name in schema && schema[name].kind == JsonList
      ensures SeenRow(schema, st).size(name) == Number(|SeenRow(schema, st).list(name)|)
      ensures NoDuplicates(SeenRow(schema, st).list(name))
    {
      SeenList(schema, st, name);
      assert Resolved(schema, name) == name;
    }
  }

  /** From CEL to SQL: a database that runs the atoms over every stored field as SQL does gives the statement
      of a filter the value the filter has on the row, exactly when the tree is aligned and readable; unless
      a comparison asks for a has_task_list that is absent, or a search of a stored list finds something else
      than is meant. The statement is left out only when the filter always holds. */
  lemma CompiledFilterMeans(db: Database, pc: Context, st: Stored, e: Expr)
    requires PlainSchema(pc.schema) && KeptLists(pc.schema, st)
    requires BuildCondition(pc, e).Some? && Render(pc.schema, BuildCondition(pc, e).value).Some?
    requires Runs(db, pc.schema, st)
    requires NeverAbsent(pc.schema, st, BuildCondition(pc, e).value)
    requires NeverMistaken(pc.schema, st, BuildCondition(pc, e).value)
    ensures var c, truth := BuildCondition(pc, e).value, ExprTruth(pc, SeenRow(pc.schema, st), e);
      var s := StatementOf(Render(pc.schema, c).value);
      if s.sql == [] then truth == True
      else Eval(db, s.sql, s.args) == if Aligned(pc.schema, c) && Readable(c) then Some(truth) else None
  {
    SeenRowIsKept(pc.schema, st);
    BuiltAsks(pc, e);
    TreeAgrees(db, pc.schema, st, BuildCondition(pc, e).value);
    StatementIsTruth(db, pc, SeenRow(pc.schema, st), e);
  }

  /** Only a tag in an empty list does not read; a leaf is always aligned and never decided by constants. */
  lemma LeafStatement(db: Database, schema: Schema, c: Condition)
    requires PlainSchema(schema) && IsLeaf(c) && Render(schema, c).Some? && !EmptyTagList(c)
    ensures Leaf(schema, c).Some?
    ensures var s := StatementOf(Render(schema, c).value);
      Eval(db, s.sql, s.args) == Some(ClauseValue(db, Leaf(schema, c).value))
  {
    StatementMeans(db, schema, c);
  }

  lemma AbsentLeaf(db: Database, schema: Schema, st: Stored, name: string, op: Operator, rhs: ValueExpr)
    requires Runs(db, schema, st) && AsksAbsent(schema, st, FieldRef(name))
    requires Leaf(schema, Comparison(FieldRef(name), op, rhs)).Some?
    ensures ClauseValue(db, Leaf(schema, Comparison(FieldRef(name), op, rhs)).value) == Null
    ensures ConditionTruth(SeenRow(schema, st), Comparison(FieldRef(name), op, rhs)) != Null
  {
    LeafOfComparison(schema, FieldRef(name), op, rhs);
    AbsentIsNull(db, schema, st, name, op, rhs);
    BuiltIsTruth(SeenRow(schema, st), Comparison(FieldRef(name), op, rhs));
  }

  /** A comparison that does ask for an absent has_task_list is unknown, where the filter has a value. */
  lemma AbsentTaskListIsUnknown(db: Database, schema: Schema, st: Stored, name: string, op: Operator, rhs: ValueExpr)
    requires PlainSchema(schema) && Runs(db, schema, st) && AsksAbsent(schema, st, FieldRef(name))
    requires Render(schema, Comparison(FieldRef(name), op, rhs)).Some?
    ensures var c := Comparison(FieldRef(name), op, rhs);
      var s := StatementOf(Render(schema, c).value);
      Eval(db, s.sql, s.args) == Some(Null) && ConditionTruth(SeenRow(schema, st), c) != Null
  {
    var c := Comparison(FieldRef(name), op, rhs);
    LeafStatement(db, schema, c);
    AbsentLeaf(db, schema, st, name, op, rhs);
  }

  /** A text filter selects exactly the rows whose folded text contains, starts with or ends with the
      folded value, whatever characters the value has. */
  lemma TextFilterIsExact(db: Database, schema: Schema, f: Folding, name: string, mode: TextMode, value: string,
                          v: Literal)
    requires PlainSchema(schema) && name in schema
    requires RunsLike(db, schema[name].expr, f, if v.Text? then Some(v.s) else None)
    requires Render(schema, TextMatch(name, mode, value)).Some?
    ensures var s := StatementOf(Render(schema, TextMatch(name, mode, value)).value);
      Eval(db, s.sql, s.args) == Some(TextTruth(f, v, mode, value))
  {
    LeafStatement(db, schema, TextMatch(name, mode, value));
    LeafOfText(schema, name, mode, value);
    LikeMeans(db, f, schema[name].expr, mode, value, v);
  }
}
