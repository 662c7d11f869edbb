/** The schema and the condition tree of the filter compiler. */
module FilterTree {
  import opened Options

  datatype FieldKind = Scalar | BoolColumn | JsonBool | JsonList | VirtualAlias

  datatype FieldType = StringType | IntType | BoolType | TimestampType

  datatype Operator = Eq | Neq | Lt | Lte | Gt | Gte

  /** A field, with its column texts ready made: the qualified column, the column with any schema
      expression around it, and the extraction from its JSON column. */
  datatype Field = Field(
    name: string, kind: FieldKind, fieldType: FieldType, column: string, expr: string, json: string,
    aliasFor: string, supportsContains: bool, allowed: Option<set<Operator>>)

  type Schema = map<string, Field>

  function Lookup(schema: Schema, name: string): Option<Field> {
    if name in schema then Some(schema[name]) else None
  }

  function ResolveAlias(schema: Schema, name: string): Option<Field> {
    if name !in schema then None
    else if schema[name].kind == VirtualAlias then Lookup(schema, schema[name].aliasFor)
    else Some(schema[name])
  }

  datatype Literal = Missing | Text(s: string) | Number(n: int) | Flag(b: bool)

  datatype ValueExpr =
    | FieldRef(name: string)
    | Lit(value: Literal)
    | Call(name: string, args: seq<ValueExpr>)
    | Accessor(field: string, part: string)

  datatype Connective = Conj | Disj

  datatype TextMode = Contains | Prefix | Suffix

  datatype Element = Equals(value: string) | Matches(mode: TextMode, value: string)

  datatype Macro = Exists | All | ExistsOne

  datatype Condition =
    | Logical(op: Connective, left: Condition, right: Condition)
    | Negation(child: Condition)
    | FieldPredicate(field: string)
    | Comparison(lhs: ValueExpr, cmp: Operator, rhs: ValueExpr)
    | In(item: ValueExpr, values: seq<ValueExpr>)
    | ElementIn(element: ValueExpr, list: string)
    | TextMatch(column: string, mode: TextMode, text: string)
    | Regex(subject: string, pattern: string)
    | Comprehension(macro: Macro, source: string, test: Element)
    | Constant(value: bool)
}
