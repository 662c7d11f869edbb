/** The renderer and the query under construction, as objects that collect arguments. */
module FilterRenderer {
  import opened Lists
  import opened Options
  import opened Sql
  import opened FilterTree
  import opened FilterClauses
  import opened FilterRender
  import opened FilterQuery

  class Renderer {
    const schema: Schema
    const placeholderOffset: nat
    var placeholderCounter: nat
    var args: seq<Value>

    constructor (schema: Schema, placeholderOffset: nat)
      ensures this.schema == schema && this.placeholderOffset == placeholderOffset
      ensures args == [] && placeholderCounter == 0
    {
      this.schema := schema;
      this.placeholderOffset := placeholderOffset;
      placeholderCounter := 0;
      args := [];
    }

    method AddArg(value: Value) returns (mark: string)
      modifies this
      ensures mark == "?" && args == old(args) + [value] && placeholderCounter == old(placeholderCounter) + 1
    {
      placeholderCounter := placeholderCounter + 1;
      args := args + [value];
      mark := "?";
    }

    /** One argument after the other, in the order of their placeholders. */
    method AddArgs(values: seq<Value>)
      modifies this
      ensures args == old(args) + values && placeholderCounter == old(placeholderCounter) + |values|
    {
      for i := 0 to |values|
        invariant args == old(args) + values[..i] && placeholderCounter == old(placeholderCounter) + i
      {
        var _ := AddArg(values[i]);
      }
      assert values[..|values|] == values;
    }

    /** What rendering a condition leaves: nothing promised on an error; else the rendering, its
        arguments behind those there were, and each of them counted. */
    ghost predicate Renders(c: Condition, before: seq<Value>, count: nat, r: Option<Rendered>)
      reads this
    {
      var o := Render(schema, c);
      if o.None? then r.None?
      else
        && r == Some(o.value.result)
        && args == before + o.value.args
        && placeholderCounter == count + |o.value.args|
    }

    method RenderTag(list: string, tag: string) returns (text: seq<Token>)
      modifies this
      ensures text == Print(TagClause(list, tag))
      ensures args == old(args) + Bound(TagClause(list, tag))
      ensures placeholderCounter == old(placeholderCounter) + |Bound(TagClause(list, tag))|
    {
      var exact := AddArg(Str(Quoted(tag)));
      var below := AddArg(Str("%\"" + tag + "/%"));
      text := [Open, Atom(list + " LIKE " + exact), Or, Atom(list + " LIKE " + below), Close];
      assert list + " LIKE " + "?" == list + " LIKE ?";
      TagText(list, tag);
    }

    method RenderTagInList(values: seq<ValueExpr>) returns (r: Option<Rendered>)
      modifies this
      ensures Renders(In(FieldRef("tag"), values), old(args), old(placeholderCounter), r)
    {
      var f := ResolveAlias(schema, "tag");
      if f.None? { return None; }
      var list := f.value.json;
      ghost var goal := TagClauses(list, values);
      ghost var done: seq<Clause> := [];
      var conditions: seq<seq<Token>> := [];
      assert values[0..] == values && After(done, goal) == goal by { AfterNothing(goal); }
      for i := 0 to |values|
        invariant goal == After(done, TagClauses(list, values[i..]))
        invariant |conditions| == i == |done|
        invariant forall k | 0 <= k < i :: conditions[k] == Print(done[k])
        invariant args == old(args) + BoundAll(done)
        invariant placeholderCounter == old(placeholderCounter) + |BoundAll(done)|
      {
        RestOfRest(values, i);
        if !(values[i].Lit? && values[i].value.Text?) { return None; }
        var tag := values[i].value.s;
        var text := RenderTag(list, tag);
        BoundAppend(done, TagClause(list, tag));
        AfterOne(done, TagClause(list, tag), TagClauses(list, values[i + 1..]));
        conditions := conditions + [text];
        done := done + [TagClause(list, tag)];
      }
      assert goal == Some(done + []);
      assert done + [] == done;
      TagsRender(schema, values, done);
      if |conditions| == 1 {
        r := Some(Fragment(conditions[0]));
      } else {
        PrintIsJoin(conditions, done);
        r := Some(Fragment([Open] + JoinConditions(conditions) + [Close]));
      }
    }

    method RenderScalarIn(name: string, values: seq<ValueExpr>) returns (r: Option<Rendered>)
      requires name != "tag" && name in schema && schema[name].kind == Scalar
      modifies this
      ensures Renders(In(FieldRef(name), values), old(args), old(placeholderCounter), r)
    {
      var f := schema[name];
      ghost var goal := ScalarValues(f.fieldType, values);
      ghost var done: seq<Value> := [];
      var marks: seq<string> := [];
      assert values[0..] == values && After(done, goal) == goal by { AfterNothing(goal); }
      for i := 0 to |values|
        invariant goal == After(done, ScalarValues(f.fieldType, values[i..]))
        invariant |done| == i && |marks| == i && forall m | m in marks :: m == "?"
        invariant args == old(args) + done && placeholderCounter == old(placeholderCounter) + i
      {
        RestOfRest(values, i);
        if !values[i].Lit? { return None; }
        var v := values[i].value;
        var bound: Value;
        if f.fieldType == StringType && v.Text? {
          bound := Str(v.s);
        } else if f.fieldType == IntType && v.Number? {
          bound := Int(v.n);
        } else {
          return None;
        }
        var mark := AddArg(bound);
        marks := marks + [mark];
        AfterOne(done, bound, ScalarValues(f.fieldType, values[i + 1..]));
        done := done + [bound];
      }
      assert goal == Some(done + []);
      assert done + [] == done;
      MarksJoin(marks);
      r := Some(Fragment([Atom(f.expr + " IN (" + JoinMarks(marks) + ")")]));
    }

    method RenderLeaf(c: Condition) returns (r: Option<Rendered>)
      requires !c.Logical? && !c.Negation? && !c.Constant?
      modifies this
      ensures Renders(c, old(args), old(placeholderCounter), r)
    {
      if c.In? && c.item == FieldRef("tag") {
        r := RenderTagInList(c.values);
      } else if c.In? && c.item.FieldRef? && c.item.name in schema && schema[c.item.name].kind == Scalar {
        r := RenderScalarIn(c.item.name, c.values);
      } else {
        var leaf := Leaf(schema, c);
        if leaf.None? { return None; }
        AddArgs(Bound(leaf.value));
        r := Some(Fragment(Print(leaf.value)));
      }
    }

    /** Renders a tree, arguments in the order of its leaves. */
    method RenderCondition(c: Condition) returns (r: Option<Rendered>)
      modifies this
      ensures Renders(c, old(args), old(placeholderCounter), r)
      decreases c
    {
      match c
      case Constant(b) => r := Some(if b then ALWAYS else NEVER);
      case Negation(inner) =>
        var child := RenderCondition(inner);
        if child.None? { return None; }
        r := Some(CombineNot(child.value));
      case Logical(op, lhs, rhs) =>
        var left := RenderCondition(lhs);
        if left.None? { return None; }
        var right := RenderCondition(rhs);
        if right.None? { return None; }
        r := Some(if op == Conj then CombineAnd(left.value, right.value) else CombineOr(left.value, right.value));
      case _ => r := RenderLeaf(c);
    }
  }

  /** Compiling one filter to a statement, with a renderer of its own. */
  method CompileToStatement(schema: Schema, filter: Option<Condition>, offset: nat) returns (s: Option<Statement>)
    ensures s == if filter.Some? && Render(schema, filter.value).Some?
                 then Some(StatementOf(Render(schema, filter.value).value)) else None
  {
    if filter.None? { return None; }
    var renderer := new Renderer(schema, offset);
    var result := renderer.RenderCondition(filter.value);
    if result.None? { return None; }
    assert [] + Render(schema, filter.value).value.args == Render(schema, filter.value).value.args;
    s := Some(StatementOf(Outcome(result.value, renderer.args)));
  }

  /** A query under construction: the fragments of its WHERE clause, and its arguments. */
  class Query {
    var wheres: seq<seq<Token>>
    var args: seq<Value>

    constructor ()
      ensures wheres == [] && args == []
    {
      wheres := [];
      args := [];
    }

    /** Appends the fragments and the arguments of the filters up to the first that does not compile. */
    method AppendConditions(schema: Schema, filters: seq<Option<Condition>>) returns (ok: bool)
      modifies this
      ensures ok == Added(schema, filters).1
      ensures wheres == old(wheres) + Wheres(Added(schema, filters).0)
      ensures args == old(args) + Arguments(Added(schema, filters).0)
    {
      ghost var goal, base, first := Added(schema, filters), wheres, args;
      ghost var done: seq<Statement> := [];
      AheadOfAll(goal);
      assert filters[0..] == filters;
      for i := 0 to |filters|
        invariant goal == Ahead(done, Added(schema, filters[i..]))
        invariant wheres == base + Wheres(done) && args == first + Arguments(done)
      {
        AddedStep(schema, filters, i, done);
        var s := CompileToStatement(schema, filters[i], |args|);
        if s.None? {
          AheadOfNothing(done, false);
          return false;
        }
        if s.value.sql != [] {
          var part := Statement([Open] + s.value.sql + [Close], s.value.args);
          PartsAppend(done, part);
          Assoc(base, Wheres(done), [part.sql]);
          Assoc(first, Arguments(done), part.args);
          wheres := wheres + [part.sql];
          args := args + part.args;
          done := done + [part];
        }
      }
      AheadOfNothing(done, true);
      ok := true;
    }
  }

  /** What a query has so far, in front of what the rest of the filters add. */
  function Ahead(done: seq<Statement>, rest: (seq<Statement>, bool)): (seq<Statement>, bool) {
    (done + rest.0, rest.1)
  }

  lemma AheadOfAll(rest: (seq<Statement>, bool))
    ensures Ahead([], rest) == rest
  {
    assert [] + rest.0 == rest.0;
  }

  lemma AheadOfNothing(done: seq<Statement>, ok: bool)
    ensures Ahead(done, ([], ok)) == (done, ok)
  {
    assert done + [] == done;
  }

  /** One filter more. */
  lemma AddedStep(schema: Schema, filters: seq<Option<Condition>>, i: nat, done: seq<Statement>)
    requires i < |filters|
    ensures var f, rest := filters[i], Added(schema, filters[i + 1..]);
      if f.None? || Render(schema, f.value).None? then Added(schema, filters[i..]) == ([], false)
      else
        var s := StatementOf(Render(schema, f.value).value);
        if s.sql == [] then Added(schema, filters[i..]) == rest
        else Ahead(done, Added(schema, filters[i..])) ==
             Ahead(done + [Statement([Open] + s.sql + [Close], s.args)], rest)
  {
    assert filters[i..][1..] == filters[i + 1..] && filters[i..][0] == filters[i];
    if Render(schema, if filters[i].Some? then filters[i].value else Constant(true)).Some? {
      var s := StatementOf(Render(schema, if filters[i].Some? then filters[i].value else Constant(true)).value);
      Assoc(done, [Statement([Open] + s.sql + [Close], s.args)], Added(schema, filters[i + 1..]).0);
    }
  }

  /** What a list-building loop has so far, in front of what the rest of the list gives. */
  function After<T>(done: seq<T>, rest: Option<seq<T>>): Option<seq<T>> {
    if rest.None? then None else Some(done + rest.value)
  }

  /** What the tags of a list render to, once each has its clause. */
  lemma TagsRender(schema: Schema, values: seq<ValueExpr>, done: seq<Clause>)
    requires ResolveAlias(schema, "tag").Some?
    requires TagClauses(ResolveAlias(schema, "tag").value.json, values) == Some(done)
    ensures Render(schema, In(FieldRef("tag"), values))
         == Some(Outcome(Fragment(if |done| == 1 then Print(done[0]) else [Open] + PrintAll(done, Or) + [Close]),
                         BoundAll(done)))
  {
    LeafOfTags(schema, values, done);
    if |done| == 1 { BoundOne(done); }
    RenderLeaf(schema, In(FieldRef("tag"), values));
  }

  lemma BoundOne(done: seq<Clause>)
    requires |done| == 1
    ensures BoundAll(done) == Bound(done[0])
  {
    assert BoundAll(done) == Bound(done[0]) + [];
  }

  lemma RenderLeaf(schema: Schema, c: Condition)
    requires c.In?
    ensures Render(schema, c)
         == if Leaf(schema, c).None? then None
            else Some(Outcome(Fragment(Print(Leaf(schema, c).value)), Bound(Leaf(schema, c).value)))
  {
  }

  lemma AfterNothing<T>(rest: Option<seq<T>>)
    ensures After([], rest) == rest
  {
    assert rest.Some? ==> [] + rest.value == rest.value;
  }

  lemma AfterOne<T>(done: seq<T>, x: T, rest: Option<seq<T>>)
    ensures After(done, After([x], rest)) == After(done + [x], rest)
  {
    assert rest.Some? ==> done + ([x] + rest.value) == done + [x] + rest.value;
  }

  lemma {:induction false} PartsAppend(parts: seq<Statement>, p: Statement)
    ensures Wheres(parts + [p]) == Wheres(parts) + [p.sql]
    ensures Arguments(parts + [p]) == Arguments(parts) + p.args
  {
    if parts == [] {
      assert parts + [p] == [p] && [p][1..] == [] && Arguments([p]) == p.args;
    } else {
      FrontOfBoth(parts, [p]);
      PartsAppend(parts[1..], p);
      Assoc([parts[0].sql], Wheres(parts[1..]), [p.sql]);
      Assoc(parts[0].args, Arguments(parts[1..]), p.args);
    }
  }

  lemma {:induction false} BoundAppend(parts: seq<Clause>, p: Clause)
    ensures BoundAll(parts + [p]) == BoundAll(parts) + Bound(p)
  {
    if parts == [] {
      assert [p][1..] == [] && BoundAll([p]) == Bound(p);
    } else {
      assert (parts + [p])[1..] == parts[1..] + [p];
      BoundAppend(parts[1..], p);
    }
  }

  lemma TagText(list: string, tag: string)
    ensures Print(TagClause(list, tag)) == [Open, Atom(list + " LIKE ?"), Or, Atom(list + " LIKE ?"), Close]
    ensures Bound(TagClause(list, tag)) == [Str(Quoted(tag)), Str("%\"" + tag + "/%")]
  {
    var a, b := LikeClause(list, Quoted(tag)), LikeClause(list, "%\"" + tag + "/%");
    assert [a, b][1..] == [b];
    assert PrintAll([b], Or) == Print(b);
    assert PrintAll([a, b], Or) == Print(a) + ([Or] + Print(b));
    assert BoundAll([b]) == Bound(b) + BoundAll([]) == Bound(b);
    assert BoundAll([a, b]) == Bound(a) + Bound(b);
  }

  function JoinConditions(conditions: seq<seq<Token>>): seq<Token> {
    if conditions == [] then []
    else if |conditions| == 1 then conditions[0]
    else conditions[0] + ([Or] + JoinConditions(conditions[1..]))
  }

  lemma {:induction false} PrintIsJoin(conditions: seq<seq<Token>>, parts: seq<Clause>)
    requires |conditions| == |parts|
    requires forall k | 0 <= k < |parts| :: conditions[k] == Print(parts[k])
    ensures JoinConditions(conditions) == PrintAll(parts, Or)
  {
    if |parts| > 1 {
      forall k | 0 <= k < |parts[1..]| ensures conditions[1..][k] == Print(parts[1..][k]) {
        assert conditions[k + 1] == Print(parts[k + 1]);
      }
      PrintIsJoin(conditions[1..], parts[1..]);
    }
  }

  function JoinMarks(marks: seq<string>): string {
    if marks == [] then "" else if |marks| == 1 then marks[0] else marks[0] + "," + JoinMarks(marks[1..])
  }

  lemma {:induction false} MarksJoin(marks: seq<string>)
    requires forall m | m in marks :: m == "?"
    ensures JoinMarks(marks) == QuestionMarks(|marks|)
  {
    if |marks| == 1 {
      assert marks[0] in marks;
    } else if marks != [] {
      assert marks[0] in marks;
      MarksJoin(marks[1..]) by { assert forall m | m in marks[1..] :: m in marks; }
      Assoc("?", ",", JoinMarks(marks[1..]));
      assert "?" + "," == "?,";
    }
  }
}
