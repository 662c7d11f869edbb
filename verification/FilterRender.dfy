/** Rendering a condition tree: constant folding, and arguments collected leaf by leaf. */
module FilterRender {
  import opened Options
  import opened Sql
  import opened FilterTree
  import opened FilterClauses

  datatype Rendered = Rendered(sql: seq<Token>, trivial: bool, unsatisfiable: bool)

  const ALWAYS := Rendered([], true, false)
  const NEVER := Rendered([Atom(FALSE)], false, true)

  function Fragment(tokens: seq<Token>): Rendered { Rendered(tokens, false, false) }

  function CombineAnd(left: Rendered, right: Rendered): Rendered {
    if left.unsatisfiable || right.unsatisfiable then NEVER
    else if left.trivial then right
    else if right.trivial then left
    else Fragment([Open] + left.sql + [And] + right.sql + [Close])
  }

  function CombineOr(left: Rendered, right: Rendered): Rendered {
    if left.trivial || right.trivial then ALWAYS
    else if left.unsatisfiable then right
    else if right.unsatisfiable then left
    else Fragment([Open] + left.sql + [Or] + right.sql + [Close])
  }

  function CombineNot(child: Rendered): Rendered {
    if child.trivial then NEVER
    else if child.unsatisfiable then ALWAYS
    else Fragment([Not, Open] + child.sql + [Close])
  }

  /** A rendering, and every argument added on the way. */
  datatype Outcome = Outcome(result: Rendered, args: seq<Value>)

  function Render(schema: Schema, c: Condition): Option<Outcome> {
    match c
    case Constant(b) => Some(Outcome(if b then ALWAYS else NEVER, []))
    case Negation(child) =>
      var r := Render(schema, child);
      if r.None? then None else Some(Outcome(CombineNot(r.value.result), r.value.args))
    case Logical(op, left, right) =>
      var l, r := Render(schema, left), Render(schema, right);
      if l.None? || r.None? then None
      else
        Some(Outcome(
          if op == Conj then CombineAnd(l.value.result, r.value.result) else CombineOr(l.value.result, r.value.result),
          l.value.args + r.value.args))
    case _ =>
      var leaf := Leaf(schema, c);
      if leaf.None? then None else Some(Outcome(Fragment(Print(leaf.value)), Bound(leaf.value)))
  }

  datatype Statement = Statement(sql: seq<Token>, args: seq<Value>)

  function StatementOf(o: Outcome): Statement {
    Statement(
      if o.result.unsatisfiable then [Atom(FALSE)] else if o.result.trivial then [] else o.result.sql,
      o.args)
  }

  /** The meaning of a tree in three-valued logic. */
  function Meaning(db: Database, schema: Schema, c: Condition): Truth
    requires Render(schema, c).Some?
  {
    match c
    case Constant(b) => Of(b)
    case Negation(child) => Not3(Meaning(db, schema, child))
    case Logical(op, left, right) =>
      Combine(Joint(op), Meaning(db, schema, left), Meaning(db, schema, right))
    case _ => ClauseValue(db, Leaf(schema, c).value)
  }

  /** The outcome of a tree that its constants alone decide. */
  function Known(c: Condition): Option<bool> {
    match c
    case Constant(b) => Some(b)
    case Negation(child) =>
      var k := Known(child);
      if k.None? then None else Some(!k.value)
    case Logical(op, left, right) =>
      var l, r, decisive := Known(left), Known(right), op == Disj;
      if l == Some(decisive) || r == Some(decisive) then Some(decisive)
      else if l.Some? && r.Some? then Some(!decisive)
      else None
    case _ => None
  }

  /** The arguments of the leaves whose text is still there after folding. */
  function Survivors(schema: Schema, c: Condition): seq<Value>
    requires Render(schema, c).Some?
  {
    if Known(c).Some? then []
    else match c
      case Negation(child) => Survivors(schema, child)
      case Logical(_, left, right) => Survivors(schema, left) + Survivors(schema, right)
      case _ => Render(schema, c).value.args
  }

  /** No part that is still there after folding asks for a tag in an empty list. */
  predicate Readable(c: Condition) {
    Known(c).Some? || match c
                      case Negation(child) => Readable(child)
                      case Logical(_, left, right) => Readable(left) && Readable(right)
                      case _ => !EmptyTagList(c)
  }

  /** No part decided by constants alone holds a leaf with arguments. */
  predicate Aligned(schema: Schema, c: Condition)
    requires Render(schema, c).Some?
  {
    && (Known(c).Some? ==> Render(schema, c).value.args == [])
    && match c
       case Negation(child) => Aligned(schema, child)
       case Logical(_, left, right) => Aligned(schema, left) && Aligned(schema, right)
       case _ => true
  }

  /** The two flags say exactly what the constants decide. */
  lemma {:induction false} FlagsAreKnown(schema: Schema, c: Condition)
    requires Render(schema, c).Some?
    ensures var r := Render(schema, c).value.result;
      r.trivial == (Known(c) == Some(true)) && r.unsatisfiable == (Known(c) == Some(false))
  {
    match c
    case Negation(child) => FlagsAreKnown(schema, child);
    case Logical(_, left, right) =>
      FlagsAreKnown(schema, left);
      FlagsAreKnown(schema, right);
    case _ =>
  }

  /** Either the constants decide a tree, or its text reads as one operand with its meaning. */
  ghost predicate Renders(db: Database, schema: Schema, c: Condition)
    requires Render(schema, c).Some?
  {
    if Known(c).Some? then Meaning(db, schema, c) == Of(Known(c).value)
    else Readable(c) ==> ReadsAs(db, Render(schema, c).value.result.sql, Survivors(schema, c), Meaning(db, schema, c))
  }

  function Joint(op: Connective): Token { if op == Conj then And else Or }

  lemma PairText(schema: Schema, op: Connective, left: Condition, right: Condition)
    requires Render(schema, Logical(op, left, right)).Some?
    requires Known(left).None? && Known(right).None?
    ensures Known(Logical(op, left, right)).None?
    ensures Render(schema, Logical(op, left, right)).value.result.sql
         == [Open] + Render(schema, left).value.result.sql + [Joint(op)]
            + Render(schema, right).value.result.sql + [Close]
    ensures Survivors(schema, Logical(op, left, right)) == Survivors(schema, left) + Survivors(schema, right)
  {
    FlagsAreKnown(schema, left);
    FlagsAreKnown(schema, right);
  }

  lemma PairRenders(db: Database, schema: Schema, op: Connective, left: Condition, right: Condition)
    requires PlainSchema(schema) && Render(schema, Logical(op, left, right)).Some?
    requires Known(left).None? && Known(right).None? && Readable(left) && Readable(right)
    requires Renders(db, schema, left) && Renders(db, schema, right)
    ensures Renders(db, schema, Logical(op, left, right))
  {
    PairText(schema, op, left, right);
    PairReads(db, Joint(op),
              Operand(Render(schema, left).value.result.sql, Survivors(schema, left), Meaning(db, schema, left)),
              Operand(Render(schema, right).value.result.sql, Survivors(schema, right), Meaning(db, schema, right)));
  }

  /** When one side is decided and the whole is not, the other side is what is left. */
  lemma FoldedText(schema: Schema, op: Connective, left: Condition, right: Condition)
    requires Render(schema, Logical(op, left, right)).Some?
    requires Known(left).Some? || Known(right).Some?
    requires Known(Logical(op, left, right)).None?
    ensures var c, rest := Logical(op, left, right), if Known(left).None? then left else right;
      && Known(rest).None?
      && Render(schema, c).value.result == Render(schema, rest).value.result
      && Survivors(schema, c) == Survivors(schema, rest)
  {
    FlagsAreKnown(schema, left);
    FlagsAreKnown(schema, right);
  }

  lemma FoldedMeaning(db: Database, schema: Schema, op: Connective, left: Condition, right: Condition)
    requires Render(schema, Logical(op, left, right)).Some?
    requires Known(left).Some? || Known(right).Some?
    requires Known(left).Some? ==> Meaning(db, schema, left) == Of(Known(left).value)
    requires Known(right).Some? ==> Meaning(db, schema, right) == Of(Known(right).value)
    ensures var c, m := Logical(op, left, right), Meaning(db, schema, Logical(op, left, right));
      if Known(c).Some? then m == Of(Known(c).value)
      else m == if Known(left).None? then Meaning(db, schema, left) else Meaning(db, schema, right)
  {
  }

  lemma FoldedRenders(db: Database, schema: Schema, op: Connective, left: Condition, right: Condition)
    requires Render(schema, Logical(op, left, right)).Some?
    requires Known(left).Some? || Known(right).Some?
    requires Renders(db, schema, left) && Renders(db, schema, right)
    ensures Renders(db, schema, Logical(op, left, right))
  {
    FoldedMeaning(db, schema, op, left, right);
    if Known(Logical(op, left, right)).None? { FoldedText(schema, op, left, right); }
  }

  /** The rendered text, with the surviving arguments, reads as one operand with the tree's meaning. */
  lemma {:induction false} RenderReads(db: Database, schema: Schema, c: Condition)
    requires PlainSchema(schema) && Render(schema, c).Some?
    ensures Renders(db, schema, c)
  {
    match c
    case Constant(_) =>
    case Negation(child) =>
      RenderReads(db, schema, child);
      FlagsAreKnown(schema, child);
      if Known(child).None? && Readable(child) {
        NotReads(db, Render(schema, child).value.result.sql, Survivors(schema, child), Meaning(db, schema, child));
      }
    case Logical(op, left, right) =>
      RenderReads(db, schema, left);
      RenderReads(db, schema, right);
      if Known(left).Some? || Known(right).Some? {
        FoldedRenders(db, schema, op, left, right);
      } else if Readable(left) && Readable(right) {
        PairRenders(db, schema, op, left, right);
      }
    case _ =>
      if Readable(c) {
        LeafIsWhole(schema, c);
        ClauseReads(db, Leaf(schema, c).value);
      }
  }

  /** Folding only ever leaves arguments behind, and leaves none behind exactly when the tree is aligned. */
  lemma {:induction false} SurvivorsCount(schema: Schema, c: Condition)
    requires Render(schema, c).Some?
    ensures var all := Render(schema, c).value.args;
      && |Survivors(schema, c)| <= |all|
      && (Aligned(schema, c) <==> |Survivors(schema, c)| == |all|)
      && (Aligned(schema, c) ==> Survivors(schema, c) == all)
  {
    match c
    case Negation(child) => SurvivorsCount(schema, child);
    case Logical(_, left, right) =>
      SurvivorsCount(schema, left);
      SurvivorsCount(schema, right);
    case _ =>
  }

  predicate Bare(s: seq<Token>) { forall t | t in s :: !t.Atom? }

  lemma {:induction false} BareHasNone(s: seq<Token>)
    requires Bare(s)
    ensures Placeholders(s) == 0
  {
    if s != [] {
      assert s[0] in s && Bare(s[1..]);
      BareHasNone(s[1..]);
    }
  }

  lemma PlaceholdersBetween(before: seq<Token>, s: seq<Token>, after: seq<Token>)
    requires Bare(before) && Bare(after)
    ensures Placeholders(before + s + after) == Placeholders(s)
  {
    BareHasNone(before);
    BareHasNone(after);
    PlaceholdersConcat(before, s);
    PlaceholdersConcat(before + s, after);
  }

  lemma EmptyTagText(schema: Schema, c: Condition)
    requires EmptyTagList(c) && Render(schema, c).Some?
    ensures Render(schema, c).value == Outcome(Fragment([Open, Close]), [])
  {
    assert Leaf(schema, c).value == Chain(Or, []);
    assert [Open] + [] + [Close] == [Open, Close];
  }

  lemma PlaceholdersOfPair(l: seq<Token>, joint: Token, r: seq<Token>)
    requires !joint.Atom?
    ensures Placeholders([Open] + l + [joint] + r + [Close]) == Placeholders(l) + Placeholders(r)
  {
    PlaceholdersConcat(l, [joint] + r);
    PlaceholdersBetween([joint], r, []);
    PlaceholdersBetween([Open], l + ([joint] + r), [Close]);
    assert [joint] + r + [] == [joint] + r;
    assert [Open] + (l + ([joint] + r)) + [Close] == [Open] + l + [joint] + r + [Close];
  }

  lemma {:induction false} SurvivorsFillThePlaceholders(db: Database, schema: Schema, c: Condition)
    requires PlainSchema(schema) && Render(schema, c).Some? && Known(c).None?
    ensures Placeholders(Render(schema, c).value.result.sql) == |Survivors(schema, c)|
  {
    match c
    case Constant(_) =>
    case Negation(child) =>
      FlagsAreKnown(schema, child);
      SurvivorsFillThePlaceholders(db, schema, child);
      PlaceholdersBetween([Not, Open], Render(schema, child).value.result.sql, [Close]);
    case Logical(op, left, right) =>
      if Known(left).None? { SurvivorsFillThePlaceholders(db, schema, left); }
      if Known(right).None? { SurvivorsFillThePlaceholders(db, schema, right); }
      if Known(left).Some? || Known(right).Some? {
        FoldedText(schema, op, left, right);
      } else {
        PairText(schema, op, left, right);
        PlaceholdersOfPair(Render(schema, left).value.result.sql, Joint(op), Render(schema, right).value.result.sql);
      }
    case _ =>
      LeafPlaceholders(db, schema, c);
  }

  lemma LeafPlaceholders(db: Database, schema: Schema, c: Condition)
    requires PlainSchema(schema) && !c.Logical? && !c.Negation? && !c.Constant? && Leaf(schema, c).Some?
    ensures Placeholders(Print(Leaf(schema, c).value)) == |Bound(Leaf(schema, c).value)|
  {
    if EmptyTagList(c) {
      EmptyTagText(schema, c);
    } else {
      LeafIsWhole(schema, c);
      var leaf := Leaf(schema, c).value;
      ClauseReads(db, leaf);
      WholeReads(db, Print(leaf), Bound(leaf), ClauseValue(db, leaf));
    }
  }

  ghost predicate Hollow(s: seq<Token>) {
    exists i :: 0 < i < |s| && s[i - 1] == Open && s[i] == Close
  }

  lemma HollowInside(before: seq<Token>, s: seq<Token>, after: seq<Token>)
    requires Hollow(s)
    ensures Hollow(before + s + after)
  {
    var i :| 0 < i < |s| && s[i - 1] == Open && s[i] == Close;
    var whole, j := before + s + after, |before| + i;
    assert whole[j - 1] == s[i - 1] && whole[j] == s[i];
  }

  lemma HollowPair(l: seq<Token>, joint: Token, r: seq<Token>)
    requires Hollow(l) || Hollow(r)
    ensures Hollow([Open] + l + [joint] + r + [Close])
  {
    if Hollow(l) {
      HollowInside([Open], l, [joint] + r + [Close]);
      assert [Open] + l + ([joint] + r + [Close]) == [Open] + l + [joint] + r + [Close];
    } else {
      HollowInside([Open] + l + [joint], r, [Close]);
    }
  }

  /** A tag in an empty list renders to `()`, and that stays in the text of any tree that keeps it. */
  lemma {:induction false} UnreadableIsHollow(schema: Schema, c: Condition)
    requires Render(schema, c).Some? && !Readable(c)
    ensures Hollow(Render(schema, c).value.result.sql)
  {
    match c
    case Constant(_) =>
    case Negation(child) =>
      FlagsAreKnown(schema, child);
      UnreadableIsHollow(schema, child);
      HollowInside([Not, Open], Render(schema, child).value.result.sql, [Close]);
    case Logical(op, left, right) =>
      if !Readable(left) { UnreadableIsHollow(schema, left); }
      if !Readable(right) { UnreadableIsHollow(schema, right); }
      if Known(left).Some? || Known(right).Some? {
        FoldedText(schema, op, left, right);
      } else {
        PairText(schema, op, left, right);
        HollowPair(Render(schema, left).value.result.sql, Joint(op), Render(schema, right).value.result.sql);
      }
    case In(_, _) =>
      EmptyTagText(schema, c);
      var s := [Open, Close];
      assert s[1 - 1] == Open && s[1] == Close;
    case _ =>
  }

  /** Rendering preserves meaning: the statement is empty for a tree that always holds, and otherwise
      its text with the surviving arguments has the tree's value, unless `()` is left in it. There are
      never more placeholders than arguments. */
  lemma TextMeans(db: Database, schema: Schema, c: Condition)
    requires PlainSchema(schema) && Render(schema, c).Some?
    ensures var s, m := StatementOf(Render(schema, c).value), Meaning(db, schema, c);
      && (s.sql == [] <==> Known(c) == Some(true))
      && (s.sql == [] ==> m == True)
      && (s.sql != [] ==> Eval(db, s.sql, Survivors(schema, c)) == if Readable(c) then Some(m) else None)
      && Placeholders(s.sql) == |Survivors(schema, c)| <= |s.args|
  {
    var o := Render(schema, c).value;
    FlagsAreKnown(schema, c);
    SurvivorsCount(schema, c);
    RenderReads(db, schema, c);
    if Known(c) == Some(false) {
      NoMark(FALSE);
      AtomReads(db, FALSE, []);
      WholeReads(db, [Atom(FALSE)], [], False);
    } else if Known(c).None? {
      SurvivorsFillThePlaceholders(db, schema, c);
      if Readable(c) {
        WholeReads(db, o.result.sql, Survivors(schema, c), Meaning(db, schema, c));
      } else {
        UnreadableIsHollow(schema, c);
        HollowHasNoValue(db, o.result.sql, Survivors(schema, c));
      }
    }
  }

  /** The statement with the arguments it is shipped with has the tree's value exactly when no part
      decided by constants alone holds a leaf with arguments and no `()` is left in the text; a
      statement that is not empty has no value otherwise. */
  lemma StatementMeans(db: Database, schema: Schema, c: Condition)
    requires PlainSchema(schema) && Render(schema, c).Some? && Known(c) != Some(true)
    ensures var s := StatementOf(Render(schema, c).value);
      Eval(db, s.sql, s.args)
        == if Aligned(schema, c) && Readable(c) then Some(Meaning(db, schema, c)) else None
  {
    var s := StatementOf(Render(schema, c).value);
    TextMeans(db, schema, c);
    SurvivorsCount(schema, c);
    ValueNeedsEveryArgument(db, s.sql, s.args);
  }

  /** `(content.contains("x") || true) && visibility == "PUBLIC"` ships two arguments for one placeholder. */
  lemma FoldingLeavesArgumentsBehind(db: Database, schema: Schema)
    requires PlainSchema(schema)
    requires "content" in schema && "visibility" in schema
    requires schema["visibility"].kind == Scalar && schema["visibility"].fieldType == StringType
    ensures var c := Logical(Conj,
      Logical(Disj, TextMatch("content", Contains, "x"), Constant(true)),
      Comparison(FieldRef("visibility"), Eq, Lit(Text("PUBLIC"))));
      && Render(schema, c).Some?
      && var s := StatementOf(Render(schema, c).value);
         && |s.args| == 2 && Placeholders(s.sql) == 1 && Eval(db, s.sql, s.args) == None
  {
    var left := Logical(Disj, TextMatch("content", Contains, "x"), Constant(true));
    var right := Comparison(FieldRef("visibility"), Eq, Lit(Text("PUBLIC")));
    assert Known(Constant(true)) == Some(true);
    assert Known(left) == Some(true);
    assert |Render(schema, left).value.args| == 1 by {
      assert Render(schema, Constant(true)).value.args == [];
      assert |Render(schema, TextMatch("content", Contains, "x")).value.args| == 1;
    }
    assert Survivors(schema, right) == [Str("PUBLIC")] && Known(right) == None;
    TextMeans(db, schema, Logical(Conj, left, right));
    StatementMeans(db, schema, Logical(Conj, left, right));
  }

  /** `tag in []` ships `()`, which has no value, though an empty list holds no tag. */
  lemma EmptyTagListHasNoValue(db: Database, schema: Schema)
    requires PlainSchema(schema) && ResolveAlias(schema, "tag").Some?
    ensures var c := In(FieldRef("tag"), []);
      && Render(schema, c).Some? && Meaning(db, schema, c) == False
      && var s := StatementOf(Render(schema, c).value);
         s == Statement([Open, Close], []) && Eval(db, s.sql, s.args) == None
  {
    var c := In(FieldRef("tag"), []);
    assert Leaf(schema, c) == TagInClause(schema, []);
    EmptyTagText(schema, c);
    StatementMeans(db, schema, c);
  }
}
