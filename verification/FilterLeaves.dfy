/** What the text of a leaf asks of a database that runs it on a stored row, and what a filter then
    says about the row. */
module FilterLeaves {
  import opened Options
  import opened Sql
  import opened FilterTree
  import opened FilterLike
  import opened FilterTags
  import opened FilterClauses
  import opened FilterMeaning

  function AsLiteral(v: Value): Literal { match v case Str(s) => Text(s) case Int(i) => Number(i) }

  function AsLiterals(vs: seq<Value>): (r: seq<Literal>)
    ensures |r| == |vs|
  {
    if vs == [] then [] else [AsLiteral(vs[0])] + AsLiterals(vs[1..])
  }

  function CompareText(expr: string, op: Operator): string { expr + " " + OperatorText(op) + " ?" }

  /** A value of this type, or NULL. */
  predicate Typed(t: FieldType, v: Literal) {
    v.Missing? || match t case StringType => v.Text? case BoolType => v.Flag? case _ => v.Number?
  }

  predicate Binds(t: FieldType, x: Value) {
    match t case StringType => x.Str? case BoolType => false case _ => x.Int?
  }

  /** The atoms over one scalar expression of this type whose stored value is `v`, Missing being NULL. */
  ghost predicate RunsScalar(db: Database, t: FieldType, expr: string, v: Literal) {
    && Typed(t, v)
    && (forall op, x | Binds(t, x) :: db(CompareText(expr, op), [x]) == Compared(v, op, AsLiteral(x)))
    && db(expr + " IS NULL", []) == Of(v.Missing?)
    && db(expr + " IS NOT NULL", []) == Of(!v.Missing?)
    && (forall xs | (forall x | x in xs :: Binds(t, x)) ::
          db(expr + " IN (" + QuestionMarks(|xs|) + ")", xs) == AnyEqual(v, AsLiterals(xs)))
  }

  /** A number the database computes for the row. */
  ghost predicate RunsNumber(db: Database, expr: string, v: Literal) {
    forall op, n :: db(CompareText(expr, op), [Int(n)]) == Compared(v, op, Number(n))
  }

  ghost predicate RunsBool(db: Database, column: string, v: Literal) {
    && Typed(BoolType, v) && RunsNumber(db, column, AsNumber(v))
    && db(column + " IS TRUE", []) == Of(v == Flag(true))
  }

  function JsonText(json: string, op: Operator, b: bool): string {
    json + " " + OperatorText(op) + (if b then " 1" else " 0")
  }

  /** A JSON key, Missing when it is absent: comparing it is unknown then, IS TRUE is false. */
  ghost predicate RunsJson(db: Database, json: string, v: Literal) {
    && Typed(BoolType, v)
    && (forall op, b :: db(JsonText(json, op, b), []) == Compared(AsNumber(v), op, AsNumber(Flag(b))))
    && db(json + " IS TRUE", []) == Of(v == Flag(true))
  }

  /** The rendered LIKE, folding both sides. */
  ghost predicate RunsLike(db: Database, expr: string, f: Folding, column: Option<string>) {
    forall pattern :: db(FoldedLikeText(expr), [Str(pattern)])
      == if column.None? then Null else Of(Like(Fold(f, pattern), Fold(f, column.value)))
  }

  // Quantifiers over a tag list.

  /** One element, as the text of an element predicate tests it. */
  function ElementTest(f: Folding, test: Element, t: string): bool {
    match test
    case Equals(v) => t == v
    case Matches(mode, v) => Like(Fold(f, LikePattern(mode, v)), Fold(f, t))
  }

  function Hits(f: Folding, test: Element, tags: seq<string>): nat {
    if tags == [] then 0 else (if ElementTest(f, test, tags[0]) then 1 else 0) + Hits(f, test, tags[1..])
  }

  function Listed(tags: Option<seq<string>>): seq<string> { if tags.Some? then tags.value else [] }

  /** The atoms over one JSON list; none when the list is absent, which json_each reads as empty. */
  ghost predicate RunsList(db: Database, f: Folding, json: string, tags: Option<seq<string>>) {
    var items := Listed(tags);
    && ClauseValue(db, Present(json)) == Of(tags.Some?)
    && ClauseValue(db, Filled(json)) == (if tags.None? then Null else Of(items != []))
    && (forall test :: ClauseValue(db, NoneFails(json, test)) == Of(Hits(f, test, items) == |items|))
    && (forall test :: ClauseValue(db, CountsOne(json, test)) == Of(Hits(f, test, items) == 1))
    && (forall pattern :: db(json + " LIKE ?", [Str(pattern)]) == LikeTruth(pattern, tags))
  }

  /** The stored text of a list compared with a pattern. */
  function LikeTruth(pattern: string, tags: Option<seq<string>>): Truth {
    if tags.None? then Null else Of(PlainLike(pattern, ListText(tags.value)))
  }

  lemma {:induction false} AllHit(f: Folding, test: Element, tags: seq<string>)
    ensures Hits(f, test, tags) <= |tags|
    ensures Hits(f, test, tags) == |tags| <==> forall t | t in tags :: ElementHolds(f, test, t)
  {
    if tags != [] {
      AllHit(f, test, tags[1..]);
      TestIsExact(f, test, tags[0]);
      assert tags == [tags[0]] + tags[1..];
    }
  }

  lemma TestIsExact(f: Folding, test: Element, t: string)
    ensures ElementTest(f, test, t) <==> ElementHolds(f, test, t)
  {
    if test.Matches? { LikeIsExact(f, test.mode, test.value, t); }
  }

  /** tags.all holds exactly on lists that are there, not empty, and whose every element holds; and it
      is never unknown. */
  lemma AllMeans(db: Database, f: Folding, json: string, test: Element, tags: Option<seq<string>>)
    requires RunsList(db, f, json, tags)
    ensures ClauseValue(db, AllClause(json, test)) == Of(MacroHolds(f, All, Listed(tags), test))
  {
    AllValue(db, f, json, test, tags);
    AllIsCounted(f, test, Listed(tags));
  }

  lemma AllIsCounted(f: Folding, test: Element, tags: seq<string>)
    ensures MacroHolds(f, All, tags, test) <==> tags != [] && Hits(f, test, tags) == |tags|
  {
    AllHit(f, test, tags);
  }

  lemma AllValue(db: Database, f: Folding, json: string, test: Element, tags: Option<seq<string>>)
    requires RunsList(db, f, json, tags)
    ensures ClauseValue(db, AllClause(json, test))
         == Of(Listed(tags) != [] && Hits(f, test, Listed(tags)) == |Listed(tags)|)
  {
    ListAtoms(db, f, json, test, tags);
    ThreeMean(db, Present(json), Filled(json), NoneFails(json, test));
  }

  lemma ListAtoms(db: Database, f: Folding, json: string, test: Element, tags: Option<seq<string>>)
    requires RunsList(db, f, json, tags)
    ensures ClauseValue(db, Present(json)) == Of(tags.Some?)
    ensures ClauseValue(db, Filled(json)) == if tags.None? then Null else Of(Listed(tags) != [])
    ensures ClauseValue(db, NoneFails(json, test)) == Of(Hits(f, test, Listed(tags)) == |Listed(tags)|)
    ensures ClauseValue(db, CountsOne(json, test)) == Of(Hits(f, test, Listed(tags)) == 1)
  {
  }

  lemma ThreeMean(db: Database, a: Clause, b: Clause, c: Clause)
    ensures ClauseValue(db, Chain(And, [a, b, c]))
         == And3(ClauseValue(db, a), And3(ClauseValue(db, b), ClauseValue(db, c)))
  {
    assert [a, b, c][1..] == [b, c] && [b, c][1..] == [c];
    assert ChainValue(db, And, [b, c]) == And3(ClauseValue(db, b), ChainValue(db, And, [c]));
  }

  /** tags.exists_one holds exactly when one element of the list, counted, holds. */
  lemma ExistsOneMeans(db: Database, f: Folding, json: string, test: Element, tags: Option<seq<string>>)
    requires RunsList(db, f, json, tags)
    ensures ClauseValue(db, CountsOne(json, test)) == Of(MacroHolds(f, ExistsOne, Listed(tags), test))
  {
    ListAtoms(db, f, json, test, tags);
    OneHit(f, test, Listed(tags));
  }

  lemma {:induction false} NoHit(f: Folding, test: Element, tags: seq<string>)
    ensures Hits(f, test, tags) == 0 <==> forall j | 0 <= j < |tags| :: !ElementHolds(f, test, tags[j])
  {
    if tags != [] {
      var rest := tags[1..];
      NoHit(f, test, rest);
      TestIsExact(f, test, tags[0]);
      assert forall j | 0 < j < |tags| :: tags[j] == rest[j - 1];
      assert forall j | 0 <= j < |rest| :: rest[j] == tags[j + 1];
    }
  }

  lemma FirstHits(f: Folding, test: Element, t: string, rest: seq<string>)
    ensures OneAt(f, test, [t] + rest, 0)
      <==> ElementHolds(f, test, t) && forall j | 0 <= j < |rest| :: !ElementHolds(f, test, rest[j])
  {
    var tags := [t] + rest;
    assert forall j | 0 <= j < |rest| :: rest[j] == tags[j + 1];
    assert forall j | 0 < j < |tags| :: tags[j] == rest[j - 1];
  }

  lemma LaterHits(f: Folding, test: Element, t: string, rest: seq<string>, i: nat)
    requires i < |rest|
    ensures OneAt(f, test, [t] + rest, i + 1) <==> !ElementHolds(f, test, t) && OneAt(f, test, rest, i)
  {
    var tags := [t] + rest;
    assert tags[0] == t;
    assert forall j | 0 <= j < |rest| :: rest[j] == tags[j + 1];
    assert forall j | 0 < j < |tags| :: tags[j] == rest[j - 1];
  }

  lemma {:induction false} OneHit(f: Folding, test: Element, tags: seq<string>)
    ensures Hits(f, test, tags) == 1 <==> OneHolds(f, test, tags)
  {
    if tags != [] {
      var t, rest := tags[0], tags[1..];
      assert tags == [t] + rest;
      TestIsExact(f, test, t);
      NoHit(f, test, rest);
      OneHit(f, test, rest);
      FirstHits(f, test, t, rest);
      forall i: nat | i < |rest| { LaterHits(f, test, t, rest, i); }
      OneHoldsSplits(f, test, t, rest);
    }
  }

  lemma OneHoldsSplits(f: Folding, test: Element, t: string, rest: seq<string>)
    ensures OneHolds(f, test, [t] + rest)
      <==> OneAt(f, test, [t] + rest, 0) || (!ElementHolds(f, test, t) && OneHolds(f, test, rest))
  {
    forall i: nat | i < |rest| { LaterHits(f, test, t, rest, i); }
    if OneHolds(f, test, [t] + rest) {
      var i :| 0 <= i < |[t] + rest| && OneAt(f, test, [t] + rest, i);
      if i > 0 { LaterHits(f, test, t, rest, i - 1); }
    }
    if !ElementHolds(f, test, t) && OneHolds(f, test, rest) {
      var i :| 0 <= i < |rest| && OneAt(f, test, rest, i);
      LaterHits(f, test, t, rest, i);
    }
  }

  // A stored row, and the database that runs the leaves on it.

  /** A row as it is stored: columns and JSON keys, with Missing for NULL and for an absent key; JSON
      lists, None when absent; parts of timestamps; and the outcome of regular expressions. */
  datatype Stored = Stored(
    fold: Folding, column: string -> Literal, list: string -> Option<seq<string>>,
    part: (string, string) -> Literal, matches: (string, string) -> Truth)

  /** What a filter sees of a stored value: a boolean JSON key that is absent is false. */
  function Seen(f: Field, v: Literal): Literal {
    if f.kind == JsonBool && v.Missing? then Flag(false) else v
  }

  /** The name under which a field is stored. */
  function Resolved(schema: Schema, name: string): string {
    if name in schema && schema[name].kind == VirtualAlias then schema[name].aliasFor else name
  }

  function SizeSeen(schema: Schema, st: Stored, name: string): Literal {
    var f := ResolveAlias(schema, name);
    if f.Some? && f.value.kind == JsonList then Number(|Listed(st.list(Resolved(schema, name)))|)
    else
      var v := st.column(Resolved(schema, name));
      if v.Text? then Number(|v.s|) else Missing
  }

  /** The row as a filter sees it. */
  function SeenRow(schema: Schema, st: Stored): Row {
    Row(st.fold,
        (name: string) => if name in schema then Seen(schema[name], st.column(name)) else Missing,
        (name: string) => Listed(st.list(Resolved(schema, name))),
        (name: string) => SizeSeen(schema, st, name),
        st.part, st.matches)
  }

  /** Text search is for scalar texts only. */
  predicate Searchable(f: Field) { f.supportsContains ==> f.kind == Scalar && f.fieldType == StringType }

  /** The database runs the atoms over one field as SQL does, on its stored value. */
  ghost predicate RunsField(db: Database, f: Field, name: string, st: Stored) {
    && Searchable(f)
    && (match f.kind
        case Scalar => RunsScalar(db, f.fieldType, f.expr, st.column(name))
        case BoolColumn => RunsBool(db, f.column, st.column(name))
        case JsonBool => RunsJson(db, f.json, st.column(name))
        case JsonList => RunsList(db, st.fold, f.json, st.list(name))
        case VirtualAlias => true)
    && (f.supportsContains ==>
          RunsLike(db, f.expr, st.fold, if st.column(name).Text? then Some(st.column(name).s) else None))
    && (forall part | AccessorSpec(part).Some? ::
          RunsNumber(db, AccessorText(f.column, AccessorSpec(part).value), st.part(name, part)))
    && (forall pattern :: db(f.expr + " REGEXP ?", [Str(pattern)]) == st.matches(name, pattern))
  }

  /** `tag`, where there is one, stands for a list. */
  predicate TagIsList(schema: Schema) {
    var f := ResolveAlias(schema, "tag");
    f.Some? ==> f.value.kind == JsonList
  }

  /** It runs the atoms over every field, and computes the sizes of lists and texts. */
  ghost predicate Runs(db: Database, schema: Schema, st: Stored) {
    && TagIsList(schema)
    && (forall name {:trigger RunsField(db, schema[name], name, st)} | name in schema ::
          RunsField(db, schema[name], name, st))
    && (forall name {:trigger SizeSeen(schema, st, name)} | SizeText(schema, name).Some? ::
          RunsNumber(db, SizeText(schema, name).value, SizeSeen(schema, st, name)))
  }

  /** The leaves that search the text of a JSON list with LIKE. */
  predicate SearchesTags(c: Condition) {
    (c.In? && c.item == FieldRef("tag")) || c.ElementIn? || (c.Comprehension? && c.macro == Exists)
  }

  // Leaf by leaf.

  /** A boolean field used as a predicate holds exactly when it is seen to be true. */
  lemma PredicateMeans(db: Database, schema: Schema, name: string, st: Stored)
    requires Runs(db, schema, st) && FieldPredicateClause(schema, name).Some?
    ensures ClauseValue(db, FieldPredicateClause(schema, name).value)
        == Of(SeenRow(schema, st).column(name) == Flag(true))
  {
    assert RunsField(db, schema[name], name, st);
  }

  lemma ScalarMeans(db: Database, f: Field, op: Operator, rhs: ValueExpr, v: Literal)
    requires RunsScalar(db, f.fieldType, f.expr, v) && ScalarClause(f, op, rhs).Some?
    ensures ClauseValue(db, ScalarClause(f, op, rhs).value)
         == if rhs == Lit(Missing) then NullTest(v, op) else Compared(v, op, rhs.value)
  {
    match rhs.value
    case Missing =>
    case Text(s) => assert Binds(f.fieldType, Str(s)) && ScalarClause(f, op, rhs).value.text == CompareText(f.expr, op);
    case Number(n) =>
      assert Binds(f.fieldType, Int(n)) && ScalarClause(f, op, rhs).value.text == CompareText(f.expr, op);
    case Flag(_) =>
  }

  lemma BoolColumnMeans(db: Database, f: Field, op: Operator, b: bool, v: Literal)
    requires RunsBool(db, f.column, v)
    ensures ClauseValue(db, BoolColumnClause(f, op, Lit(Flag(b))).value) == Compared(v, op, Flag(b))
  {
    var n := if b then 1 else 0;
    assert BoolColumnClause(f, op, Lit(Flag(b))).value == Prim(CompareText(f.column, op), [Int(n)]);
  }

  /** A comparison with a boolean JSON field says whether the flag is seen to be so, for every stored
      row, except that comparing has_task_list is unknown exactly when its key is absent. */
  lemma JsonBoolMeans(db: Database, f: Field, op: Operator, b: bool, v: Literal)
    requires f.kind == JsonBool && RunsJson(db, f.json, v) && (op == Eq || op == Neq)
    ensures var value := ClauseValue(db, JsonBoolClause(f, op, Lit(Flag(b))).value);
      && (value == Compared(Seen(f, v), op, Flag(b)) <==> !(f.name == "has_task_list" && v.Missing?))
      && (f.name == "has_task_list" && v.Missing? ==> value == Null)
  {
    var c := JsonBoolClause(f, op, Lit(Flag(b))).value;
    if f.name == "has_task_list" {
      assert c == Prim(JsonText(f.json, op, b), []);
    } else {
      assert ClauseValue(db, IsTrue(f.json)) == Of(v == Flag(true));
      assert c == if b == (op == Eq) then IsTrue(f.json) else Neg(IsTrue(f.json));
    }
  }

  /** A comparison of a field asks for a has_task_list whose key is absent. */
  predicate AsksAbsent(schema: Schema, st: Stored, lhs: ValueExpr) {
    && lhs.FieldRef? && lhs.name in schema
    && schema[lhs.name].kind == JsonBool && schema[lhs.name].name == "has_task_list" && st.column(lhs.name).Missing?
  }

  // What a database that runs a stored row runs, one kind of atom at a time.

  lemma RunsKind(db: Database, schema: Schema, st: Stored, name: string)
    requires Runs(db, schema, st) && name in schema
    ensures var f, v := schema[name], st.column(name);
      && (f.kind == Scalar ==> RunsScalar(db, f.fieldType, f.expr, v))
      && (f.kind == BoolColumn ==> RunsBool(db, f.column, v))
      && (f.kind == JsonBool ==> RunsJson(db, f.json, v))
      && (f.kind == JsonList ==> RunsList(db, st.fold, f.json, st.list(name)))
  {
    assert RunsField(db, schema[name], name, st);
  }

  lemma RunsSearch(db: Database, schema: Schema, st: Stored, name: string)
    requires Runs(db, schema, st) && name in schema && schema[name].supportsContains
    ensures schema[name].kind == Scalar && schema[name].fieldType == StringType && Typed(StringType, st.column(name))
    ensures RunsLike(db, schema[name].expr, st.fold, if st.column(name).Text? then Some(st.column(name).s) else None)
  {
    assert RunsField(db, schema[name], name, st);
  }

  lemma RunsPart(db: Database, schema: Schema, st: Stored, name: string, part: string)
    requires Runs(db, schema, st) && name in schema && AccessorSpec(part).Some?
    ensures RunsNumber(db, AccessorText(schema[name].column, AccessorSpec(part).value), st.part(name, part))
  {
    assert RunsField(db, schema[name], name, st);
  }

  lemma RunsSize(db: Database, schema: Schema, st: Stored, name: string)
    requires Runs(db, schema, st) && SizeText(schema, name).Some?
    ensures RunsNumber(db, SizeText(schema, name).value, SizeSeen(schema, st, name))
  {
  }

  lemma RunsRegex(db: Database, schema: Schema, st: Stored, name: string, pattern: string)
    requires Runs(db, schema, st) && name in schema
    ensures ClauseValue(db, Prim(schema[name].expr + " REGEXP ?", [Str(pattern)])) == st.matches(name, pattern)
  {
    assert RunsField(db, schema[name], name, st);
  }

  lemma NumberMeans(db: Database, text: string, op: Operator, n: int, v: Literal)
    requires RunsNumber(db, text, v)
    ensures ClauseValue(db, Compare(text, op, Int(n))) == Compared(v, op, Number(n))
  {
    assert Compare(text, op, Int(n)) == Prim(CompareText(text, op), [Int(n)]);
  }

  // Comparisons.

  /** The clause of a comparison with a field, by the kind of the field. */
  function FieldClause(f: Field, op: Operator, rhs: ValueExpr): Option<Clause> {
    match f.kind
    case BoolColumn => BoolColumnClause(f, op, rhs)
    case JsonBool => JsonBoolClause(f, op, rhs)
    case Scalar => ScalarClause(f, op, rhs)
    case _ => None
  }

  /** What that comparison says. */
  function FieldTruth(v: Literal, op: Operator, rhs: Literal): Truth {
    if rhs.Missing? then NullTest(v, op) else Compared(v, op, rhs)
  }

  lemma FieldClauseMeans(db: Database, schema: Schema, st: Stored, name: string, op: Operator, rhs: ValueExpr)
    requires Runs(db, schema, st) && name in schema && FieldClause(schema[name], op, rhs).Some?
    ensures rhs.Lit?
    ensures ClauseValue(db, FieldClause(schema[name], op, rhs).value)
        == FieldTruth(Seen(schema[name], st.column(name)), op, rhs.value)
      <==> !AsksAbsent(schema, st, FieldRef(name))
  {
    var f, v := schema[name], st.column(name);
    RunsKind(db, schema, st, name);
    match f.kind {
      case Scalar => ScalarMeans(db, f, op, rhs, v);
      case BoolColumn => BoolColumnMeans(db, f, op, rhs.value.b, v);
      case JsonBool => JsonBoolMeans(db, f, op, rhs.value.b, v);
      case _ =>
    }
  }

  lemma FieldComparison(schema: Schema, st: Stored, name: string, op: Operator, rhs: ValueExpr)
    requires ComparisonClause(schema, FieldRef(name), op, rhs).Some?
    ensures name in schema && ComparisonClause(schema, FieldRef(name), op, rhs) == FieldClause(schema[name], op, rhs)
    ensures rhs.Lit? ==>
      ComparisonTruth(SeenRow(schema, st), FieldRef(name), op, rhs)
          == FieldTruth(Seen(schema[name], st.column(name)), op, rhs.value)
  {
  }

  lemma SizeComparison(schema: Schema, st: Stored, call: string, args: seq<ValueExpr>, op: Operator, rhs: ValueExpr)
    requires ComparisonClause(schema, Call(call, args), op, rhs).Some?
    ensures |args| == 1 && args[0].FieldRef? && SizeText(schema, args[0].name).Some? && rhs.Lit? && rhs.value.Number?
    ensures ComparisonClause(schema, Call(call, args), op, rhs).value
         == Compare(SizeText(schema, args[0].name).value, op, Int(rhs.value.n))
    ensures ComparisonTruth(SeenRow(schema, st), Call(call, args), op, rhs)
         == Compared(SizeSeen(schema, st, args[0].name), op, rhs.value)
  {
    SizeTruth(SeenRow(schema, st), call, args, op, rhs);
    assert SeenRow(schema, st).size(args[0].name) == SizeSeen(schema, st, args[0].name);
  }

  lemma SizeTruth(row: Row, call: string, args: seq<ValueExpr>, op: Operator, rhs: ValueExpr)
    requires |args| == 1 && args[0].FieldRef? && rhs.Lit? && rhs.value.Number?
    ensures ComparisonTruth(row, Call(call, args), op, rhs) == Compared(row.size(args[0].name), op, rhs.value)
  {
  }

  lemma PartComparison(schema: Schema, field: string, part: string, op: Operator, rhs: ValueExpr)
    requires ComparisonClause(schema, Accessor(field, part), op, rhs).Some?
    ensures field in schema && AccessorSpec(part).Some? && rhs.Lit? && rhs.value.Number?
    ensures ComparisonClause(schema, Accessor(field, part), op, rhs).value
         == Compare(AccessorText(schema[field].column, AccessorSpec(part).value), op, Int(rhs.value.n))
  {
  }

  lemma PartTruth(schema: Schema, st: Stored, field: string, part: string, op: Operator, rhs: ValueExpr)
    requires rhs.Lit? && rhs.value.Number?
    ensures ComparisonTruth(SeenRow(schema, st), Accessor(field, part), op, rhs)
         == Compared(st.part(field, part), op, rhs.value)
  {
  }

  /** Every comparison of a field, a size or a part of a timestamp has its meaning, for every stored row,
      unless it asks for a has_task_list that is absent. */
  lemma ComparisonClauseMeans(db: Database, schema: Schema, st: Stored, lhs: ValueExpr, op: Operator, rhs: ValueExpr)
    requires Runs(db, schema, st) && ComparisonClause(schema, lhs, op, rhs).Some?
    ensures ClauseValue(db, ComparisonClause(schema, lhs, op, rhs).value)
        == ComparisonTruth(SeenRow(schema, st), lhs, op, rhs)
      <==> !AsksAbsent(schema, st, lhs)
  {
    match lhs {
      case FieldRef(name) =>
        FieldComparison(schema, st, name, op, rhs);
        FieldClauseMeans(db, schema, st, name, op, rhs);
      case Call(call, args) =>
        SizeComparison(schema, st, call, args, op, rhs);
        RunsSize(db, schema, st, args[0].name);
        NumberMeans(db, SizeText(schema, args[0].name).value, op, rhs.value.n, SizeSeen(schema, st, args[0].name));
      case Accessor(field, part) =>
        PartComparison(schema, field, part, op, rhs);
        PartTruth(schema, st, field, part, op, rhs);
        RunsPart(db, schema, st, field, part);
        var text := AccessorText(schema[field].column, AccessorSpec(part).value);
        NumberMeans(db, text, op, rhs.value.n, st.part(field, part));
      case Lit(_) =>
    }
  }

  lemma {:induction false} BoundAsLiterals(schema: Schema, row: Row, t: FieldType, values: seq<ValueExpr>)
    requires ScalarValues(t, values).Some?
    ensures AsLiterals(ScalarValues(t, values).value) == ValuesOf(row, values)
    ensures forall x | x in ScalarValues(t, values).value :: Binds(t, x)
  {
    if values != [] {
      BoundAsLiterals(schema, row, t, values[1..]);
      var all, rest := ScalarValues(t, values).value, ScalarValues(t, values[1..]).value;
      assert all == [all[0]] + rest && all[1..] == rest;
    }
  }

  /** Membership in a list of literals is equality with one of them. */
  lemma ScalarInMeans(db: Database, schema: Schema, st: Stored, name: string, values: seq<ValueExpr>)
    requires Runs(db, schema, st) && name != "tag" && InClause(schema, FieldRef(name), values).Some?
    ensures ClauseValue(db, InClause(schema, FieldRef(name), values).value)
         == AnyEqual(SeenRow(schema, st).column(name), ValuesOf(SeenRow(schema, st), values))
  {
    assert RunsField(db, schema[name], name, st);
    BoundAsLiterals(schema, SeenRow(schema, st), schema[name].fieldType, values);
  }

  lemma LikeMeans(db: Database, f: Folding, expr: string, mode: TextMode, text: string, v: Literal)
    requires RunsLike(db, expr, f, if v.Text? then Some(v.s) else None)
    ensures ClauseValue(db, FoldedLike(expr, mode, text)) == TextTruth(f, v, mode, text)
  {
    if v.Text? { LikeIsExact(f, mode, text, v.s); }
    assert ClauseValue(db, FoldedLike(expr, mode, text)) == db(FoldedLikeText(expr), [Str(LikePattern(mode, text))]);
  }

  lemma SeenText(schema: Schema, st: Stored, name: string)
    requires name in schema && schema[name].kind == Scalar
    ensures SeenRow(schema, st).column(name) == st.column(name)
  {
  }

  lemma SeenList(schema: Schema, st: Stored, name: string)
    requires name in schema && schema[name].kind == JsonList
    ensures SeenRow(schema, st).list(name) == Listed(st.list(name))
  {
    assert Resolved(schema, name) == name;
  }

  /** A text match has its meaning, whatever characters the value has. */
  lemma TextMatchMeans(db: Database, schema: Schema, st: Stored, name: string, mode: TextMode, text: string)
    requires Runs(db, schema, st) && name in schema && schema[name].supportsContains
    ensures schema[name].kind == Scalar
    ensures ClauseValue(db, FoldedLike(schema[name].expr, mode, text))
        == TextTruth(st.fold, st.column(name), mode, text)
  {
    RunsSearch(db, schema, st, name);
    LikeMeans(db, st.fold, schema[name].expr, mode, text, st.column(name));
  }

  lemma MacroClause(schema: Schema, macro: Macro, source: string, test: Element)
    requires macro != Exists && ComprehensionClause(schema, macro, source, test).Some?
    ensures source in schema && schema[source].kind == JsonList
    ensures ComprehensionClause(schema, macro, source, test).value
         == if macro == All then AllClause(schema[source].json, test) else CountsOne(schema[source].json, test)
  {
  }

  lemma MacroClauseMeans(db: Database, schema: Schema, st: Stored, macro: Macro, source: string, test: Element)
    requires Runs(db, schema, st) && source in schema && schema[source].kind == JsonList && macro != Exists
    ensures var json := schema[source].json;
      ClauseValue(db, if macro == All then AllClause(json, test) else CountsOne(json, test))
        == Of(MacroHolds(st.fold, macro, Listed(st.list(source)), test))
  {
    RunsKind(db, schema, st, source);
    if macro == All {
      AllMeans(db, st.fold, schema[source].json, test, st.list(source));
    } else {
      ExistsOneMeans(db, st.fold, schema[source].json, test, st.list(source));
    }
  }

  lemma MacroMeans(db: Database, schema: Schema, st: Stored, macro: Macro, source: string, test: Element)
    requires Runs(db, schema, st) && macro != Exists && ComprehensionClause(schema, macro, source, test).Some?
    ensures ClauseValue(db, ComprehensionClause(schema, macro, source, test).value)
         == Of(MacroHolds(st.fold, macro, Listed(st.list(source)), test))
  {
    MacroClause(schema, macro, source, test);
    MacroClauseMeans(db, schema, st, macro, source, test);
  }

  /** A comparison that asks for an absent has_task_list is unknown, where the flag is seen to be false. */
  lemma AbsentIsNull(db: Database, schema: Schema, st: Stored, name: string, op: Operator, rhs: ValueExpr)
    requires Runs(db, schema, st) && AsksAbsent(schema, st, FieldRef(name))
    requires ComparisonClause(schema, FieldRef(name), op, rhs).Some?
    ensures ClauseValue(db, ComparisonClause(schema, FieldRef(name), op, rhs).value) == Null
    ensures ComparisonTruth(SeenRow(schema, st), FieldRef(name), op, rhs) != Null
  {
    FieldComparison(schema, st, name, op, rhs);
    RunsKind(db, schema, st, name);
    JsonBoolMeans(db, schema[name], op, rhs.value.b, st.column(name));
  }
}
