/** From CEL expressions to condition trees. */
module FilterParser {
  import opened Lists
  import opened Options
  import opened FilterTree

  /** Operands of comparisons, as CEL writes them. Folded arithmetic enters as a constant. */
  datatype Term =
    | Ident(name: string)
    | Const(value: Literal)
    | SizeOf(arg: Term)
    | PartOf(target: string, part: string)

  datatype SetOperation = SetContains | SetIntersects | SetEquivalent

  datatype Expr =
    | AndExpr(left: Expr, right: Expr)
    | OrExpr(left: Expr, right: Expr)
    | NotExpr(child: Expr)
    | ConstExpr(literal: Literal)
    | IdentExpr(ident: string)
    | CompareExpr(op: Operator, lhs: Term, rhs: Term)
    | InList(item: Term, elements: seq<Term>)
    | InField(element: Term, list: string)
    | TextExpr(mode: TextMode, target: string, text: Literal)
    | MatchesExpr(subject: string, pattern: Literal)
    | SetExpr(operation: SetOperation, field: string, members: seq<Term>)
    | MacroExpr(macro: Macro, source: string, test: Element)

  /** The schema, and the instant that `now` stands for during one compilation. */
  datatype Context = Context(schema: Schema, now: int, nowPart: string -> int)

  predicate IsAccessor(part: string) {
    part in {"getFullYear", "getMonth", "getDate", "getDayOfMonth", "getDayOfWeek", "getDayOfYear",
             "getHours", "getMinutes", "getSeconds"}
  }

  function BuildValue(pc: Context, t: Term): Option<ValueExpr> {
    match t
    case Ident(name) =>
      if name == "now" then Some(Lit(Number(pc.now)))
      else if name in pc.schema then Some(FieldRef(name))
      else None
    case Const(v) => Some(Lit(v))
    case SizeOf(arg) =>
      var inner := BuildValue(pc, arg);
      if inner.None? then None else Some(Call("size", [inner.value]))
    case PartOf(target, part) =>
      if !IsAccessor(part) then None
      else if target == "now" then Some(Lit(Number(pc.nowPart(part))))
      else if target in pc.schema && pc.schema[target].fieldType == TimestampType then Some(Accessor(target, part))
      else None
  }

  function BuildValues(pc: Context, ts: seq<Term>): Option<seq<ValueExpr>> {
    if ts == [] then Some([])
    else
      var head, tail := BuildValue(pc, ts[0]), BuildValues(pc, ts[1..]);
      if head.None? || tail.None? then None else Some([head.value] + tail.value)
  }

  function MirrorComparisonOperator(op: Operator): Operator {
    match op case Lt => Gt case Lte => Gte case Gt => Lt case Gte => Lte case _ => op
  }

  /** Strings in the order of their characters. */
  predicate Before(a: string, b: string) {
    b != "" && (a == "" || a[0] < b[0] || (a[0] == b[0] && Before(a[1..], b[1..])))
  }

  /** A comparison of two literals, if their types and the operator allow one. */
  function CompareLiterals(a: Literal, op: Operator, b: Literal): Option<bool> {
    match (a, b)
    case (Number(x), Number(y)) =>
      Some(match op
           case Eq => x == y case Neq => x != y
           case Lt => x < y case Lte => x <= y case Gt => x > y case Gte => x >= y)
    case (Text(x), Text(y)) =>
      Some(match op
           case Eq => x == y case Neq => x != y
           case Lt => Before(x, y) case Lte => !Before(y, x) case Gt => Before(y, x) case Gte => !Before(x, y))
    case (Flag(x), Flag(y)) =>
      (match op case Eq => Some(x == y) case Neq => Some(x != y) case _ => None)
    case _ => None
  }

  predicate AllowsOperator(schema: Schema, name: string, op: Operator) {
    var f := ResolveAlias(schema, name);
    f.Some? && (f.value.allowed.Some? ==> op in f.value.allowed.value)
  }

  function BuildComparison(pc: Context, op: Operator, lhs: Term, rhs: Term): Option<Condition> {
    var l, r := BuildValue(pc, lhs), BuildValue(pc, rhs);
    if l.None? || r.None? then None
    else if l.value.Lit? && r.value.Lit? then
      var outcome := CompareLiterals(l.value.value, op, r.value.value);
      if outcome.None? then None else Some(Constant(outcome.value))
    else
      var (first, o, second) :=
        if l.value.Lit? then (r.value, MirrorComparisonOperator(op), l.value) else (l.value, op, r.value);
      if first.FieldRef? && !AllowsOperator(pc.schema, first.name, o) then None
      else Some(Comparison(first, o, second))
  }

  /** A list of string constants. */
  function Strings(ts: seq<Term>): Option<seq<string>> {
    if ts == [] then Some([])
    else
      var tail := Strings(ts[1..]);
      if ts[0].Const? && ts[0].value.Text? && tail.Some? then Some([ts[0].value.s] + tail.value) else None
  }

  function Membership(field: string, s: string): Condition { ElementIn(Lit(Text(s)), field) }

  function Memberships(field: string, values: seq<string>): (r: seq<Condition>)
    ensures |r| == |values|
  {
    if values == [] then [] else [Membership(field, values[0])] + Memberships(field, values[1..])
  }

  function SizeEquals(field: string, n: nat): Condition {
    Comparison(Call("size", [FieldRef(field)]), Eq, Lit(Number(n)))
  }

  /** Conditions combined from the left. */
  function CombineFrom(op: Connective, first: Condition, others: seq<Condition>): Condition
    decreases others
  {
    if others == [] then first else CombineFrom(op, Logical(op, first, others[0]), others[1..])
  }

  /** The strings of a list that do not stand in it before, nor in `seen`, in order. */
  function Distinct(values: seq<string>, seen: set<string>): seq<string> {
    if values == [] then []
    else if values[0] in seen then Distinct(values[1..], seen)
    else [values[0]] + Distinct(values[1..], seen + {values[0]})
  }

  function SetCondition(operation: SetOperation, field: string, values: seq<string>): Condition {
    match operation
    case SetContains =>
      if values == [] then Constant(true)
      else CombineFrom(Conj, Membership(field, values[0]), Memberships(field, values[1..]))
    case SetIntersects =>
      if values == [] then Constant(false)
      else CombineFrom(Disj, Membership(field, values[0]), Memberships(field, values[1..]))
    case SetEquivalent =>
      var d := Distinct(values, {});
      if d == [] then SizeEquals(field, 0)
      else Logical(Conj, CombineFrom(Conj, Membership(field, d[0]), Memberships(field, d[1..])), SizeEquals(field, |d|))
  }

  function BuildSet(pc: Context, operation: SetOperation, field: string, members: seq<Term>): Option<Condition> {
    var f, values := Lookup(pc.schema, field), Strings(members);
    if f.None? || f.value.kind != JsonList || values.None? then None
    else Some(SetCondition(operation, field, values.value))
  }

  function BuildIn(pc: Context, item: Term, elements: seq<Term>): Option<Condition> {
    if !item.Ident? || ResolveAlias(pc.schema, item.name).None? then None
    else
      var values := BuildValues(pc, elements);
      if values.None? then None else Some(In(FieldRef(item.name), values.value))
  }

  predicate Searchable(schema: Schema, name: string) { name in schema && schema[name].supportsContains }

  function BuildCondition(pc: Context, e: Expr): Option<Condition> {
    match e
    case AndExpr(left, right) =>
      var l, r := BuildCondition(pc, left), BuildCondition(pc, right);
      if l.None? || r.None? then None else Some(Logical(Conj, l.value, r.value))
    case OrExpr(left, right) =>
      var l, r := BuildCondition(pc, left), BuildCondition(pc, right);
      if l.None? || r.None? then None else Some(Logical(Disj, l.value, r.value))
    case NotExpr(child) =>
      var c := BuildCondition(pc, child);
      if c.None? then None else Some(Negation(c.value))
    case ConstExpr(v) => if v.Flag? then Some(Constant(v.b)) else None
    case IdentExpr(name) =>
      if name in pc.schema && pc.schema[name].fieldType == BoolType then Some(FieldPredicate(name)) else None
    case CompareExpr(op, lhs, rhs) => BuildComparison(pc, op, lhs, rhs)
    case InList(item, elements) => BuildIn(pc, item, elements)
    case InField(element, list) =>
      var v := BuildValue(pc, element);
      if list !in pc.schema || v.None? then None else Some(ElementIn(v.value, list))
    case TextExpr(mode, target, text) =>
      if Searchable(pc.schema, target) && text.Text? then Some(TextMatch(target, mode, text.s)) else None
    case MatchesExpr(subject, pattern) =>
      if Searchable(pc.schema, subject) && pattern.Text? then Some(Regex(subject, pattern.s)) else None
    case SetExpr(operation, field, members) => BuildSet(pc, operation, field, members)
    case MacroExpr(macro, source, test) =>
      if source in pc.schema && pc.schema[source].kind == JsonList
      then Some(Comprehension(macro, source, test)) else None
  }

  // The loops of the source.

  method DistinctStrings(values: seq<string>) returns (out: seq<string>)
    ensures out == Distinct(values, {})
    ensures forall s :: s in out <==> s in values
    ensures forall i, j | 0 <= i < j < |out| :: out[i] != out[j]
  {
    var seen: set<string> := {};
    out := [];
    assert values[0..] == values && [] + Distinct(values, {}) == Distinct(values, {});
    for i := 0 to |values|
      invariant forall s :: s in seen <==> s in out
      invariant forall s :: s in out <==> s in values[..i]
      invariant forall i, j | 0 <= i < j < |out| :: out[i] != out[j]
      invariant Distinct(values, {}) == out + Distinct(values[i..], seen)
    {
      var v := values[i];
      assert values[..i + 1] == values[..i] + [v];
      RestOfRest(values, i);
      if v !in seen {
        ghost var rest := Distinct(values[i + 1..], seen + {v});
        assert out + ([v] + rest) == out + [v] + rest;
        seen := seen + {v};
        out := out + [v];
      }
    }
    assert values[..|values|] == values;
    assert out + [] == out;
  }

  method CombineConditions(op: Connective, conds: seq<Condition>) returns (result: Condition)
    requires conds != []
    ensures result == CombineFrom(op, conds[0], conds[1..])
  {
    result := conds[0];
    for i := 1 to |conds|
      invariant CombineFrom(op, result, conds[i..]) == CombineFrom(op, conds[0], conds[1..])
    {
      RestOfRest(conds, i);
      result := Logical(op, result, conds[i]);
    }
  }

  method BuildSetCondition(pc: Context, operation: SetOperation, field: string, members: seq<Term>)
    returns (r: Option<Condition>)
    ensures r == BuildSet(pc, operation, field, members)
  {
    if field !in pc.schema || pc.schema[field].kind != JsonList { return None; }
    var values: seq<string> := [];
    ghost var goal := Strings(members);
    assert members[0..] == members && (goal.Some? ==> [] + goal.value == goal.value);
    for i := 0 to |members|
      invariant var rest := Strings(members[i..]);
        goal == if rest.None? then None else Some(values + rest.value)
    {
      RestOfRest(members, i);
      if !(members[i].Const? && members[i].value.Text?) { return None; }
      var s := members[i].value.s;
      assert forall rest: seq<string> :: values + ([s] + rest) == values + [s] + rest;
      values := values + [s];
    }
    assert values + [] == values;
    match operation
    case SetContains =>
      if values == [] { return Some(Constant(true)); }
      var c := CombineConditions(Conj, Memberships(field, values));
      r := Some(c);
    case SetIntersects =>
      if values == [] { return Some(Constant(false)); }
      var c := CombineConditions(Disj, Memberships(field, values));
      r := Some(c);
    case SetEquivalent =>
      var d := DistinctStrings(values);
      if d == [] { return Some(SizeEquals(field, 0)); }
      var c := CombineConditions(Conj, Memberships(field, d));
      r := Some(Logical(Conj, c, SizeEquals(field, |d|)));
  }
}
