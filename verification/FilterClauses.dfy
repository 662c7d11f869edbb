/** The SQL of one condition that is neither a constant nor a connective, and its arguments. */
module FilterClauses {
  import opened Options
  import opened Sql
  import opened FilterTree
  import opened FilterLike

  /** The SQL of one leaf, before it is printed. */
  datatype Clause =
    | Prim(text: string, bound: seq<Value>)
    | Neg(inner: Clause)
    | Chain(joint: Token, parts: seq<Clause>)

  /** The printed text: a chain stands in parentheses. */
  function Print(c: Clause): seq<Token> {
    match c
    case Prim(text, _) => [Atom(text)]
    case Neg(inner) => [Not, Open] + Print(inner) + [Close]
    case Chain(joint, parts) => [Open] + PrintAll(parts, joint) + [Close]
  }

  function PrintAll(parts: seq<Clause>, joint: Token): seq<Token> {
    if parts == [] then []
    else if |parts| == 1 then Print(parts[0])
    else Print(parts[0]) + ([joint] + PrintAll(parts[1..], joint))
  }

  /** The arguments in the order they are bound. */
  function Bound(c: Clause): seq<Value> {
    match c
    case Prim(_, args) => args
    case Neg(inner) => Bound(inner)
    case Chain(_, parts) => BoundAll(parts)
  }

  function BoundAll(parts: seq<Clause>): seq<Value> {
    if parts == [] then [] else Bound(parts[0]) + BoundAll(parts[1..])
  }

  /** Every atom has one placeholder for each of its arguments, and no chain is empty. */
  predicate Whole(c: Clause) {
    match c
    case Prim(text, args) => Marks(text) == |args|
    case Neg(inner) => Whole(inner)
    case Chain(joint, parts) => (joint == And || joint == Or) && parts != [] && forall p | p in parts :: Whole(p)
  }

  /** What a clause means over a database. */
  function ClauseValue(db: Database, c: Clause): Truth
    decreases c
  {
    match c
    case Prim(text, args) => db(text, args)
    case Neg(inner) => Not3(ClauseValue(db, inner))
    case Chain(joint, parts) => ChainValue(db, joint, parts)
  }

  function ChainValue(db: Database, joint: Token, parts: seq<Clause>): Truth
    decreases parts
  {
    if parts == [] then Of(joint == And)
    else
      var head := ClauseValue(db, parts[0]);
      if |parts| == 1 then head else Combine(joint, head, ChainValue(db, joint, parts[1..]))
  }

  /** A printed clause reads back as what it means. */
  lemma {:induction false} ClauseReads(db: Database, c: Clause)
    requires Whole(c)
    ensures ReadsAs(db, Print(c), Bound(c), ClauseValue(db, c))
    decreases c, 0
  {
    match c
    case Prim(text, args) => AtomReads(db, text, args);
    case Neg(inner) =>
      ClauseReads(db, inner);
      NotReads(db, Print(inner), Bound(inner), ClauseValue(db, inner));
    case Chain(joint, parts) =>
      PartsRead(db, joint, parts);
      GroupReads(db, joint, PrintAll(parts, joint), BoundAll(parts), ChainValue(db, joint, parts));
  }

  lemma {:induction false} PartsRead(db: Database, joint: Token, parts: seq<Clause>)
    requires joint == And || joint == Or
    requires parts != [] && forall p | p in parts :: Whole(p)
    ensures ReadsAsChain(db, joint, PrintAll(parts, joint), BoundAll(parts), ChainValue(db, joint, parts))
    decreases parts
  {
    var p := parts[0];
    var o := Operand(Print(p), Bound(p), ClauseValue(db, p));
    ClauseReads(db, p);
    if |parts| == 1 {
      assert BoundAll(parts) == o.args;
      OneReads(db, joint, o);
    } else {
      PartsRead(db, joint, parts[1..]);
      JointReads(db, joint, o, PrintAll(parts[1..], joint), BoundAll(parts[1..]), ChainValue(db, joint, parts[1..]));
    }
  }

  function OperatorText(op: Operator): string {
    match op case Eq => "=" case Neq => "!=" case Lt => "<" case Lte => "<=" case Gt => ">" case Gte => ">="
  }

  function Compare(expr: string, op: Operator, value: Value): Clause {
    Prim(expr + " " + OperatorText(op) + " ?", [value])
  }

  function IsTrue(expr: string): Clause { Prim(expr + " IS TRUE", []) }

  function LikeClause(list: string, pattern: string): Clause {
    Prim(list + " LIKE ?", [Str(pattern)])
  }

  function Quoted(tag: string): string { "%\"" + tag + "\"%" }

  function LikeFront(expr: string): string { "memos_unicode_lower(" + expr + ") LIKE memos_unicode_lower(" }

  const LIKE_END: string := ") ESCAPE '\\'"

  function FoldedLikeText(expr: string): string { LikeFront(expr) + "?" + LIKE_END }

  function FoldedLike(expr: string, mode: TextMode, value: string): Clause {
    Prim(FoldedLikeText(expr), [Str(LikePattern(mode, value))])
  }

  /** The strftime specifier and the offset of a timestamp accessor. */
  function AccessorSpec(part: string): Option<(string, nat)> {
    if part == "getFullYear" then Some(("%Y", 0))
    else if part == "getMonth" then Some(("%m", 1))
    else if part == "getDate" then Some(("%d", 0))
    else if part == "getDayOfMonth" then Some(("%d", 1))
    else if part == "getDayOfWeek" then Some(("%w", 0))
    else if part == "getDayOfYear" then Some(("%j", 1))
    else if part == "getHours" then Some(("%H", 0))
    else if part == "getMinutes" then Some(("%M", 0))
    else if part == "getSeconds" then Some(("%S", 0))
    else None
  }

  function AccessorText(column: string, spec: (string, nat)): string {
    var base := "CAST(strftime('" + spec.0 + "', " + column + ", 'unixepoch') AS INTEGER)";
    if spec.1 == 0 then base else "(" + base + " - 1)"
  }

  function FieldPredicateClause(schema: Schema, name: string): Option<Clause> {
    var f := Lookup(schema, name);
    if f.None? then None
    else match f.value.kind
      case BoolColumn => Some(IsTrue(f.value.column))
      case JsonBool => Some(IsTrue(f.value.json))
      case _ => None
  }

  function BoolColumnClause(f: Field, op: Operator, rhs: ValueExpr): Option<Clause> {
    if rhs.Lit? && rhs.value.Flag? then Some(Compare(f.column, op, Int(if rhs.value.b then 1 else 0))) else None
  }

  function JsonBoolClause(f: Field, op: Operator, rhs: ValueExpr): Option<Clause> {
    if !(rhs.Lit? && rhs.value.Flag? && (op == Eq || op == Neq)) then None
    else if f.name == "has_task_list" then
      Some(Prim(f.json + " " + OperatorText(op) + (if rhs.value.b then " 1" else " 0"), []))
    else if rhs.value.b == (op == Eq) then Some(IsTrue(f.json))
    else Some(Neg(IsTrue(f.json)))
  }

  function ScalarClause(f: Field, op: Operator, rhs: ValueExpr): Option<Clause> {
    if !rhs.Lit? then None
    else if rhs.value.Missing? then
      match op
      case Eq => Some(Prim(f.expr + " IS NULL", []))
      case Neq => Some(Prim(f.expr + " IS NOT NULL", []))
      case _ => None
    else match f.fieldType
      case StringType => if rhs.value.Text? then Some(Compare(f.expr, op, Str(rhs.value.s))) else None
      case BoolType => None
      case _ => if rhs.value.Number? then Some(Compare(f.expr, op, Int(rhs.value.n))) else None
  }

  function SizeText(schema: Schema, name: string): Option<string> {
    var f := ResolveAlias(schema, name);
    if f.None? then None
    else if f.value.kind == JsonList then Some("JSON_ARRAY_LENGTH(COALESCE(" + f.value.json + ", JSON_ARRAY()))")
    else if f.value.kind == Scalar && f.value.fieldType == StringType then Some("LENGTH(" + f.value.expr + ")")
    else None
  }

  function ComparisonClause(schema: Schema, lhs: ValueExpr, op: Operator, rhs: ValueExpr): Option<Clause> {
    match lhs
    case FieldRef(name) =>
      var f := Lookup(schema, name);
      if f.None? then None
      else (match f.value.kind
        case BoolColumn => BoolColumnClause(f.value, op, rhs)
        case JsonBool => JsonBoolClause(f.value, op, rhs)
        case Scalar => ScalarClause(f.value, op, rhs)
        case _ => None)
    case Call(name, args) =>
      if name != "size" || |args| != 1 || !args[0].FieldRef? || !(rhs.Lit? && rhs.value.Number?) then None
      else
        var text := SizeText(schema, args[0].name);
        if text.None? then None else Some(Compare(text.value, op, Int(rhs.value.n)))
    case Accessor(field, part) =>
      var f, spec := Lookup(schema, field), AccessorSpec(part);
      if f.None? || spec.None? || !(rhs.Lit? && rhs.value.Number?) then None
      else Some(Compare(AccessorText(f.value.column, spec.value), op, Int(rhs.value.n)))
    case Lit(_) => None
  }

  /** A tag in a list: the tag itself or a tag below it. */
  function TagClause(list: string, tag: string): Clause {
    Chain(Or, [LikeClause(list, Quoted(tag)), LikeClause(list, "%\"" + tag + "/%")])
  }

  function TagClauses(list: string, values: seq<ValueExpr>): Option<seq<Clause>> {
    if values == [] then Some([])
    else if !(values[0].Lit? && values[0].value.Text?) then None
    else
      var rest := TagClauses(list, values[1..]);
      if rest.None? then None else Some([TagClause(list, values[0].value.s)] + rest.value)
  }

  function TagInClause(schema: Schema, values: seq<ValueExpr>): Option<Clause> {
    var f := ResolveAlias(schema, "tag");
    if f.None? then None
    else
      var parts := TagClauses(f.value.json, values);
      if parts.None? then None
      else if |parts.value| == 1 then Some(parts.value[0])
      else Some(Chain(Or, parts.value))
  }

  /** The values of a list of literals, as a field of this type binds them. */
  function ScalarValues(t: FieldType, values: seq<ValueExpr>): Option<seq<Value>> {
    if values == [] then Some([])
    else if !values[0].Lit? then None
    else
      var v := values[0].value;
      var rest := ScalarValues(t, values[1..]);
      if rest.None? then None
      else if t == StringType && v.Text? then Some([Str(v.s)] + rest.value)
      else if t == IntType && v.Number? then Some([Int(v.n)] + rest.value)
      else None
  }

  function QuestionMarks(n: nat): string {
    if n == 0 then "" else if n == 1 then "?" else "?," + QuestionMarks(n - 1)
  }

  function InClause(schema: Schema, item: ValueExpr, values: seq<ValueExpr>): Option<Clause> {
    if !item.FieldRef? then None
    else if item.name == "tag" then TagInClause(schema, values)
    else
      var f := Lookup(schema, item.name);
      if f.None? || f.value.kind != Scalar then None
      else
        var vs := ScalarValues(f.value.fieldType, values);
        if vs.None? then None
        else Some(Prim(f.value.expr + " IN (" + QuestionMarks(|vs.value|) + ")", vs.value))
  }

  function ElementInClause(schema: Schema, element: ValueExpr, list: string): Option<Clause> {
    var f := Lookup(schema, list);
    if f.None? || f.value.kind != JsonList || !(element.Lit? && element.value.Text?) then None
    else Some(LikeClause(f.value.json, Quoted(element.value.s)))
  }

  function ElementClause(test: Element): Clause {
    match test
    case Equals(v) => Prim("value = ?", [Str(v)])
    case Matches(mode, v) => FoldedLike("value", mode, v)
  }

  /** One atom with its text put between two others. */
  function Within(before: string, test: Element, after: string): Clause {
    var e := ElementClause(test);
    Prim(before + e.text + after, e.bound)
  }

  function Present(list: string): Clause { Prim(list + " IS NOT NULL", []) }

  function Filled(list: string): Clause { Prim(list + " != '[]'", []) }

  function NoneFails(list: string, test: Element): Clause {
    Within("NOT EXISTS (SELECT 1 FROM json_each(" + list + ") WHERE NOT (", test, "))")
  }

  function CountsOne(list: string, test: Element): Clause {
    Within("(SELECT COUNT(*) FROM json_each(" + list + ") WHERE ", test, ") = 1")
  }

  function AnyTag(list: string, test: Element): Clause {
    match test
    case Equals(v) => LikeClause(list, Quoted(v))
    case Matches(Prefix, v) => Chain(Or, [LikeClause(list, Quoted(v)), LikeClause(list, "%\"" + v + "%")])
    case Matches(Suffix, v) => LikeClause(list, "%" + v + "\"%")
    case Matches(Contains, v) => LikeClause(list, "%" + v + "%")
  }

  function AllClause(list: string, test: Element): Clause {
    Chain(And, [Present(list), Filled(list), NoneFails(list, test)])
  }

  function ComprehensionClause(schema: Schema, macro: Macro, source: string, test: Element): Option<Clause> {
    var f := Lookup(schema, source);
    if f.None? || f.value.kind != JsonList then None
    else
      var list := f.value.json;
      match macro
      case All => Some(AllClause(list, test))
      case ExistsOne =>
        Some(CountsOne(list, test))
      case Exists =>
        Some(Chain(And, [AnyTag(list, test), Present(list), Filled(list)]))
  }

  /** The clause of a condition that is no constant and no connective; none if the source rejects it. */
  function Leaf(schema: Schema, c: Condition): Option<Clause>
    requires !c.Logical? && !c.Negation? && !c.Constant?
  {
    match c
    case FieldPredicate(field) => FieldPredicateClause(schema, field)
    case Comparison(lhs, op, rhs) => ComparisonClause(schema, lhs, op, rhs)
    case In(item, values) => InClause(schema, item, values)
    case ElementIn(element, list) => ElementInClause(schema, element, list)
    case TextMatch(column, mode, text) =>
      var f := Lookup(schema, column);
      if f.None? then None else Some(FoldedLike(f.value.expr, mode, text))
    case Regex(subject, pattern) =>
      var f := Lookup(schema, subject);
      if f.None? then None else Some(Prim(f.value.expr + " REGEXP ?", [Str(pattern)]))
    case Comprehension(macro, source, test) => ComprehensionClause(schema, macro, source, test)
  }

  lemma LeafOfText(schema: Schema, name: string, mode: TextMode, text: string)
    requires name in schema
    ensures Leaf(schema, TextMatch(name, mode, text)) == Some(FoldedLike(schema[name].expr, mode, text))
  {
  }

  lemma LeafOfIn(schema: Schema, item: ValueExpr, values: seq<ValueExpr>)
    ensures Leaf(schema, In(item, values)) == InClause(schema, item, values)
  {
  }

  lemma LeafOfTags(schema: Schema, values: seq<ValueExpr>, parts: seq<Clause>)
    requires ResolveAlias(schema, "tag").Some?
    requires TagClauses(ResolveAlias(schema, "tag").value.json, values) == Some(parts)
    ensures Leaf(schema, In(FieldRef("tag"), values)) == Some(if |parts| == 1 then parts[0] else Chain(Or, parts))
  {
  }

  lemma LeafOfElement(schema: Schema, element: ValueExpr, list: string)
    ensures Leaf(schema, ElementIn(element, list)) == ElementInClause(schema, element, list)
  {
  }

  lemma LeafOfPredicate(schema: Schema, name: string)
    ensures Leaf(schema, FieldPredicate(name)) == FieldPredicateClause(schema, name)
  {
  }

  lemma LeafOfRegex(schema: Schema, subject: string, pattern: string)
    requires Leaf(schema, Regex(subject, pattern)).Some?
    ensures subject in schema
    ensures Leaf(schema, Regex(subject, pattern)) == Some(Prim(schema[subject].expr + " REGEXP ?", [Str(pattern)]))
  {
  }

  lemma LeafOfMacro(schema: Schema, macro: Macro, source: string, test: Element)
    ensures Leaf(schema, Comprehension(macro, source, test)) == ComprehensionClause(schema, macro, source, test)
  {
  }

  lemma LeafOfComparison(schema: Schema, lhs: ValueExpr, op: Operator, rhs: ValueExpr)
    ensures Leaf(schema, Comparison(lhs, op, rhs)) == ComparisonClause(schema, lhs, op, rhs)
  {
  }

  predicate Plain(s: string) { '?' !in s }

  /** No column text of the schema holds a placeholder. */
  ghost predicate PlainSchema(schema: Schema) {
    forall name | name in schema :: Plain(schema[name].column) && Plain(schema[name].expr) && Plain(schema[name].json)
  }

  /** The one condition whose text SQL cannot read: a tag in an empty list. */
  predicate EmptyTagList(c: Condition) {
    c.In? && c.item == FieldRef("tag") && c.values == []
  }

  lemma {:induction false} NoMark(s: string)
    requires Plain(s)
    ensures Marks(s) == 0
  {
    if s != "" {
      assert s[0] in s && Plain(s[1..]);
      NoMark(s[1..]);
    }
  }

  lemma OneMark(a: string, b: string)
    requires Plain(a) && Plain(b)
    ensures Marks(a + "?" + b) == 1
  {
    NoMark(a);
    NoMark(b);
    MarksConcat(a, "?");
    MarksConcat(a + "?", b);
    assert "?"[1..] == "";
  }

  lemma {:induction false} QuestionMarksCount(n: nat)
    ensures Marks(QuestionMarks(n)) == n
  {
    if n == 1 {
      OneMark("", "");
      assert "" + "?" + "" == "?";
    } else if n > 1 {
      QuestionMarksCount(n - 1);
      OneMark("", ",");
      assert "" + "?" + "," == "?,";
      MarksConcat("?,", QuestionMarks(n - 1));
    }
  }

  lemma CompareIsWhole(expr: string, op: Operator, value: Value)
    requires Plain(expr)
    ensures Whole(Compare(expr, op, value))
  {
    OneMark(expr + " " + OperatorText(op) + " ", "");
    assert expr + " " + OperatorText(op) + " " + "?" + "" == expr + " " + OperatorText(op) + " ?";
  }

  lemma LikeIsWhole(list: string, pattern: string)
    requires Plain(list)
    ensures Whole(LikeClause(list, pattern))
  {
    OneMark(list + " LIKE ", "");
    assert list + " LIKE " + "?" + "" == list + " LIKE ?";
  }

  lemma LikeFrontIsPlain(expr: string)
    requires Plain(expr)
    ensures Plain(LikeFront(expr)) && Plain(LIKE_END)
  {
  }

  lemma FoldedLikeIsWhole(expr: string, mode: TextMode, value: string)
    requires Plain(expr)
    ensures Whole(FoldedLike(expr, mode, value))
  {
    LikeFrontIsPlain(expr);
    OneMark(LikeFront(expr), LIKE_END);
  }

  lemma WithinIsWhole(before: string, test: Element, after: string)
    requires Plain(before) && Plain(after)
    ensures Whole(Within(before, test, after))
  {
    NoMark(before);
    NoMark(after);
    var e := ElementClause(test);
    match test {
      case Equals(v) => OneMark("value = ", ""); assert "value = " + "?" + "" == "value = ?";
      case Matches(mode, v) => FoldedLikeIsWhole("value", mode, v);
    }
    MarksConcat(before, e.text);
    MarksConcat(before + e.text, after);
  }

  lemma NotEmptyIsWhole(list: string)
    requires Plain(list)
    ensures Whole(Present(list)) && Whole(Filled(list))
  {
    NoMark(list + " IS NOT NULL");
    NoMark(list + " != '[]'");
  }

  lemma AnyTagIsWhole(list: string, test: Element)
    requires Plain(list)
    ensures Whole(AnyTag(list, test))
  {
    match test
    case Equals(v) => LikeIsWhole(list, Quoted(v));
    case Matches(Prefix, v) => LikeIsWhole(list, Quoted(v)); LikeIsWhole(list, "%\"" + v + "%");
    case Matches(Suffix, v) => LikeIsWhole(list, "%" + v + "\"%");
    case Matches(Contains, v) => LikeIsWhole(list, "%" + v + "%");
  }

  lemma {:induction false} TagClausesAreWhole(list: string, values: seq<ValueExpr>)
    requires Plain(list) && TagClauses(list, values).Some?
    ensures |TagClauses(list, values).value| == |values|
    ensures forall p | p in TagClauses(list, values).value :: Whole(p)
  {
    if values != [] {
      TagClausesAreWhole(list, values[1..]);
      var tag := values[0].value.s;
      LikeIsWhole(list, Quoted(tag));
      LikeIsWhole(list, "%\"" + tag + "/%");
    }
  }

  lemma JsonBoolIsWhole(f: Field, op: Operator, rhs: ValueExpr)
    requires Plain(f.json) && JsonBoolClause(f, op, rhs).Some?
    ensures Whole(JsonBoolClause(f, op, rhs).value)
  {
    NoMark(f.json + " IS TRUE");
    NoMark(f.json + " " + OperatorText(op) + " 1");
    NoMark(f.json + " " + OperatorText(op) + " 0");
  }

  lemma ScalarIsWhole(f: Field, op: Operator, rhs: ValueExpr)
    requires Plain(f.expr) && ScalarClause(f, op, rhs).Some?
    ensures Whole(ScalarClause(f, op, rhs).value)
  {
    match rhs.value
    case Missing =>
      NoMark(f.expr + " IS NULL");
      NoMark(f.expr + " IS NOT NULL");
    case Text(s) => CompareIsWhole(f.expr, op, Str(s));
    case Number(n) => CompareIsWhole(f.expr, op, Int(n));
    case Flag(_) =>
  }

  lemma SizeIsPlain(schema: Schema, name: string)
    requires PlainSchema(schema) && SizeText(schema, name).Some?
    ensures Plain(SizeText(schema, name).value)
  {
    var f := ResolveAlias(schema, name).value;
    assert Plain(f.json) && Plain(f.expr);
  }

  lemma AccessorIsPlain(column: string, part: string)
    requires Plain(column) && AccessorSpec(part).Some?
    ensures Plain(AccessorText(column, AccessorSpec(part).value))
  {
    assert Plain(AccessorSpec(part).value.0);
  }

  lemma ComparisonIsWhole(schema: Schema, lhs: ValueExpr, op: Operator, rhs: ValueExpr)
    requires PlainSchema(schema) && ComparisonClause(schema, lhs, op, rhs).Some?
    ensures Whole(ComparisonClause(schema, lhs, op, rhs).value)
  {
    match lhs
    case FieldRef(name) =>
      var f := schema[name];
      match f.kind {
        case BoolColumn => CompareIsWhole(f.column, op, Int(if rhs.value.b then 1 else 0));
        case JsonBool => JsonBoolIsWhole(f, op, rhs);
        case Scalar => ScalarIsWhole(f, op, rhs);
      }
    case Call(name, args) =>
      SizeIsPlain(schema, args[0].name);
      CompareIsWhole(SizeText(schema, args[0].name).value, op, Int(rhs.value.n));
    case Accessor(field, part) =>
      AccessorIsPlain(schema[field].column, part);
      CompareIsWhole(AccessorText(schema[field].column, AccessorSpec(part).value), op, Int(rhs.value.n));
  }

  lemma InIsWhole(schema: Schema, item: ValueExpr, values: seq<ValueExpr>)
    requires PlainSchema(schema) && InClause(schema, item, values).Some? && !EmptyTagList(In(item, values))
    ensures Whole(InClause(schema, item, values).value)
  {
    if item.name == "tag" {
      TagClausesAreWhole(ResolveAlias(schema, "tag").value.json, values);
    } else {
      var f := schema[item.name];
      var n := |ScalarValues(f.fieldType, values).value|;
      NoMark(f.expr + " IN (");
      NoMark(")");
      QuestionMarksCount(n);
      MarksConcat(f.expr + " IN (", QuestionMarks(n));
      MarksConcat(f.expr + " IN (" + QuestionMarks(n), ")");
    }
  }

  lemma NoneFailsIsWhole(list: string, test: Element)
    requires Plain(list)
    ensures Whole(NoneFails(list, test))
  {
    WithinIsWhole("NOT EXISTS (SELECT 1 FROM json_each(" + list + ") WHERE NOT (", test, "))");
  }

  lemma AllIsWhole(list: string, test: Element)
    requires Plain(list)
    ensures Whole(AllClause(list, test))
  {
    NotEmptyIsWhole(list);
    NoneFailsIsWhole(list, test);
  }

  lemma CountIsWhole(list: string, test: Element)
    requires Plain(list)
    ensures Whole(CountsOne(list, test))
  {
    WithinIsWhole("(SELECT COUNT(*) FROM json_each(" + list + ") WHERE ", test, ") = 1");
  }

  lemma ExistsIsWhole(list: string, test: Element)
    requires Plain(list)
    ensures Whole(Chain(And, [AnyTag(list, test), Present(list), Filled(list)]))
  {
    NotEmptyIsWhole(list);
    AnyTagIsWhole(list, test);
  }

  lemma ComprehensionIsWhole(schema: Schema, macro: Macro, source: string, test: Element)
    requires PlainSchema(schema) && ComprehensionClause(schema, macro, source, test).Some?
    ensures Whole(ComprehensionClause(schema, macro, source, test).value)
  {
    var list := schema[source].json;
    AllIsWhole(list, test);
    CountIsWhole(list, test);
    ExistsIsWhole(list, test);
  }

  /** Every leaf the renderer accepts has as many placeholders as arguments, in every atom. */
  lemma LeafIsWhole(schema: Schema, c: Condition)
    requires PlainSchema(schema) && !c.Logical? && !c.Negation? && !c.Constant?
    requires Leaf(schema, c).Some? && !EmptyTagList(c)
    ensures Whole(Leaf(schema, c).value)
  {
    match c
    case FieldPredicate(field) =>
      NoMark(schema[field].column + " IS TRUE");
      NoMark(schema[field].json + " IS TRUE");
    case Comparison(lhs, op, rhs) => ComparisonIsWhole(schema, lhs, op, rhs);
    case In(item, values) => InIsWhole(schema, item, values);
    case ElementIn(element, list) => LikeIsWhole(schema[list].json, Quoted(element.value.s));
    case TextMatch(column, mode, text) => FoldedLikeIsWhole(schema[column].expr, mode, text);
    case Regex(subject, pattern) =>
      OneMark(schema[subject].expr + " REGEXP ", "");
      assert schema[subject].expr + " REGEXP " + "?" + "" == schema[subject].expr + " REGEXP ?";
    case Comprehension(macro, source, test) => ComprehensionIsWhole(schema, macro, source, test);
  }
}
