/** What filters say about a row, as CEL and as condition trees, and that building the tree and
    rendering it keep that meaning. */
module FilterMeaning {
  import opened Options
  import opened Sql
  import opened FilterTree
  import opened FilterLike
  import opened FilterClauses
  import opened FilterRender
  import opened FilterParser

  /** A row as a filter sees it: its columns, with Missing for NULL; its lists; the sizes of lists and
      texts; the parts of timestamps; the outcome of a regular expression; and how case is folded. */
  datatype Row = Row(
    fold: Folding, column: string -> Literal, list: string -> seq<string>, size: string -> Literal,
    part: (string, string) -> Literal, matches: (string, string) -> Truth)

  function ValueOf(row: Row, v: ValueExpr): Literal {
    match v
    case FieldRef(name) => row.column(name)
    case Lit(value) => value
    case Call(_, args) => if |args| == 1 && args[0].FieldRef? then row.size(args[0].name) else Missing
    case Accessor(field, part) => row.part(field, part)
  }

  function ValuesOf(row: Row, vs: seq<ValueExpr>): (r: seq<Literal>)
    ensures |r| == |vs|
  {
    if vs == [] then [] else [ValueOf(row, vs[0])] + ValuesOf(row, vs[1..])
  }

  /** A boolean as a number. */
  function AsNumber(v: Literal): Literal { if v.Flag? then Number(if v.b then 1 else 0) else v }

  /** A comparison of two values: unknown when one is missing or their types do not compare. False comes
      before true. */
  function Compared(a: Literal, op: Operator, b: Literal): Truth {
    var r := if a.Flag? && b.Flag? then CompareLiterals(AsNumber(a), op, AsNumber(b)) else CompareLiterals(a, op, b);
    if r.None? then Null else Of(r.value)
  }

  /** Comparing with the literal null asks whether the value is missing. */
  function NullTest(v: Literal, op: Operator): Truth {
    match op case Eq => Of(v.Missing?) case Neq => Of(!v.Missing?) case _ => Null
  }

  /** Equal to one of the values, in three-valued logic. */
  function AnyEqual(v: Literal, values: seq<Literal>): Truth {
    if values == [] then False else Or3(Compared(v, Eq, values[0]), AnyEqual(v, values[1..]))
  }

  /** The tag itself or one below it. */
  predicate Under(tags: seq<string>, v: Literal) {
    v.Text? && exists t | t in tags :: t == v.s || v.s + "/" <= t
  }

  predicate AnyUnder(tags: seq<string>, values: seq<Literal>) {
    exists v | v in values :: Under(tags, v)
  }

  /** Membership of a field in a list of values; a tag is also in a list that holds a tag above it. */
  function InTruth(row: Row, name: string, values: seq<Literal>): Truth {
    if name == "tag" then Of(AnyUnder(row.list("tag"), values)) else AnyEqual(row.column(name), values)
  }

  predicate Member(v: Literal, tags: seq<string>) { v.Text? && v.s in tags }

  /** A text match, without regard to case. */
  ghost function TextTruth(f: Folding, v: Literal, mode: TextMode, text: string): Truth {
    if v.Text? then Of(TextHolds(mode, Fold(f, v.s), Fold(f, text))) else Null
  }

  /** One element of a list, as the predicate of a macro means it. */
  ghost predicate ElementHolds(f: Folding, test: Element, t: string) {
    match test
    case Equals(v) => t == v
    case Matches(mode, v) => TextHolds(mode, Fold(f, t), Fold(f, v))
  }

  /** The element at `i` holds, and no other. */
  ghost predicate OneAt(f: Folding, test: Element, tags: seq<string>, i: nat)
    requires i < |tags|
  {
    ElementHolds(f, test, tags[i]) && forall j | 0 <= j < |tags| && j != i :: !ElementHolds(f, test, tags[j])
  }

  ghost predicate OneHolds(f: Folding, test: Element, tags: seq<string>) {
    exists i | 0 <= i < |tags| :: OneAt(f, test, tags, i)
  }

  /** The macros as the filter language documents them: `all` never holds of an empty list. */
  ghost predicate MacroHolds(f: Folding, macro: Macro, tags: seq<string>, test: Element) {
    match macro
    case Exists => exists t | t in tags :: ElementHolds(f, test, t)
    case All => tags != [] && forall t | t in tags :: ElementHolds(f, test, t)
    case ExistsOne => OneHolds(f, test, tags)
  }

  function ComparisonTruth(row: Row, lhs: ValueExpr, op: Operator, rhs: ValueExpr): Truth {
    if rhs == Lit(Missing) then NullTest(ValueOf(row, lhs), op) else Compared(ValueOf(row, lhs), op, ValueOf(row, rhs))
  }

  ghost function ConditionTruth(row: Row, c: Condition): Truth {
    match c
    case Constant(b) => Of(b)
    case Negation(child) => Not3(ConditionTruth(row, child))
    case Logical(op, left, right) => Combine(Joint(op), ConditionTruth(row, left), ConditionTruth(row, right))
    case FieldPredicate(name) => Of(row.column(name) == Flag(true))
    case Comparison(lhs, op, rhs) => ComparisonTruth(row, lhs, op, rhs)
    case In(item, values) => if item.FieldRef? then InTruth(row, item.name, ValuesOf(row, values)) else Null
    case ElementIn(element, list) => Of(Member(ValueOf(row, element), row.list(list)))
    case TextMatch(column, mode, text) => TextTruth(row.fold, row.column(column), mode, text)
    case Regex(subject, pattern) => row.matches(subject, pattern)
    case Comprehension(macro, source, test) => Of(MacroHolds(row.fold, macro, row.list(source), test))
  }

  function TermValue(pc: Context, row: Row, t: Term): Literal {
    match t
    case Ident(name) => if name == "now" then Number(pc.now) else row.column(name)
    case Const(v) => v
    case SizeOf(arg) => if arg.Ident? && arg.name != "now" then row.size(arg.name) else Missing
    case PartOf(target, part) => if target == "now" then Number(pc.nowPart(part)) else row.part(target, part)
  }

  function TermValues(pc: Context, row: Row, ts: seq<Term>): (r: seq<Literal>)
    ensures |r| == |ts|
  {
    if ts == [] then [] else [TermValue(pc, row, ts[0])] + TermValues(pc, row, ts[1..])
  }

  function Items(s: seq<string>): set<string> { set x | x in s }

  /** The set operations, on the lists as sets. */
  function SetTruth(operation: SetOperation, tags: set<string>, values: set<string>): bool {
    match operation
    case SetContains => values <= tags
    case SetIntersects => tags * values != {}
    case SetEquivalent => tags == values
  }

  function CompareTruth(pc: Context, row: Row, op: Operator, lhs: Term, rhs: Term): Truth {
    if rhs == Const(Missing) then NullTest(TermValue(pc, row, lhs), op)
    else if lhs == Const(Missing) then NullTest(TermValue(pc, row, rhs), op)
    else Compared(TermValue(pc, row, lhs), op, TermValue(pc, row, rhs))
  }

  /** The value of a CEL filter on a row; a filter that is not accepted has none. */
  ghost function ExprTruth(pc: Context, row: Row, e: Expr): Truth {
    match e
    case AndExpr(left, right) => And3(ExprTruth(pc, row, left), ExprTruth(pc, row, right))
    case OrExpr(left, right) => Or3(ExprTruth(pc, row, left), ExprTruth(pc, row, right))
    case NotExpr(child) => Not3(ExprTruth(pc, row, child))
    case ConstExpr(v) => Of(v == Flag(true))
    case IdentExpr(name) => Of(row.column(name) == Flag(true))
    case CompareExpr(op, lhs, rhs) => CompareTruth(pc, row, op, lhs, rhs)
    case InList(item, elements) => if item.Ident? then InTruth(row, item.name, TermValues(pc, row, elements)) else Null
    case InField(element, list) => Of(Member(TermValue(pc, row, element), row.list(list)))
    case TextExpr(mode, target, text) =>
      if text.Text? then TextTruth(row.fold, row.column(target), mode, text.s) else Null
    case MatchesExpr(subject, pattern) => if pattern.Text? then row.matches(subject, pattern.s) else Null
    case SetExpr(operation, field, members) =>
      var values := Strings(members);
      if values.Some? then Of(SetTruth(operation, Items(row.list(field)), Items(values.value))) else Null
    case MacroExpr(macro, source, test) => Of(MacroHolds(row.fold, macro, row.list(source), test))
  }

  predicate NoDuplicates(s: seq<string>) {
    forall i, j | 0 <= i < j < |s| :: s[i] != s[j]
  }

  lemma IdentMeans(pc: Context, row: Row, name: string)
    requires BuildValue(pc, Ident(name)).Some?
    ensures ValueOf(row, BuildValue(pc, Ident(name)).value) == TermValue(pc, row, Ident(name))
    ensures BuildValue(pc, Ident(name)).value != Lit(Missing)
  {
  }

  /** Only identifiers are built to fields. */
  lemma FieldsAreIdents(pc: Context, arg: Term)
    requires BuildValue(pc, arg).Some?
    ensures BuildValue(pc, arg).value.FieldRef? <==> arg.Ident? && arg.name != "now"
    ensures arg.Ident? && arg.name != "now" ==> BuildValue(pc, arg).value == FieldRef(arg.name)
  {
    match arg
    case Ident(_) =>
    case Const(_) =>
    case SizeOf(_) =>
    case PartOf(_, _) =>
  }

  lemma SizeBuilds(pc: Context, arg: Term)
    requires BuildValue(pc, SizeOf(arg)).Some?
    ensures BuildValue(pc, arg).Some? && BuildValue(pc, SizeOf(arg)).value == Call("size", [BuildValue(pc, arg).value])
  {
  }

  lemma SizeMeans(pc: Context, row: Row, arg: Term)
    requires BuildValue(pc, SizeOf(arg)).Some?
    ensures ValueOf(row, BuildValue(pc, SizeOf(arg)).value) == TermValue(pc, row, SizeOf(arg))
    ensures BuildValue(pc, SizeOf(arg)).value.Call?
  {
    SizeBuilds(pc, arg);
    FieldsAreIdents(pc, arg);
  }

  lemma PartMeans(pc: Context, row: Row, target: string, part: string)
    requires BuildValue(pc, PartOf(target, part)).Some?
    ensures ValueOf(row, BuildValue(pc, PartOf(target, part)).value) == TermValue(pc, row, PartOf(target, part))
    ensures BuildValue(pc, PartOf(target, part)).value != Lit(Missing)
  {
  }

  lemma BuildValueMeans(pc: Context, row: Row, t: Term)
    requires BuildValue(pc, t).Some?
    ensures ValueOf(row, BuildValue(pc, t).value) == TermValue(pc, row, t)
    ensures BuildValue(pc, t).value == Lit(Missing) <==> t == Const(Missing)
  {
    match t
    case Ident(name) => IdentMeans(pc, row, name);
    case Const(_) =>
    case SizeOf(arg) => SizeMeans(pc, row, arg);
    case PartOf(target, part) => PartMeans(pc, row, target, part);
  }

  lemma {:induction false} BuildValuesMean(pc: Context, row: Row, ts: seq<Term>)
    requires BuildValues(pc, ts).Some?
    ensures ValuesOf(row, BuildValues(pc, ts).value) == TermValues(pc, row, ts)
  {
    if ts != [] {
      BuildValueMeans(pc, row, ts[0]);
      BuildValuesMean(pc, row, ts[1..]);
      var rest := BuildValues(pc, ts[1..]).value;
      assert BuildValues(pc, ts).value == [BuildValue(pc, ts[0]).value] + rest;
      assert BuildValues(pc, ts).value[1..] == rest;
    }
  }

  /** Swapping operands and mirroring the operator keeps every comparison. */
  lemma MirrorMeans(a: Literal, op: Operator, b: Literal)
    ensures CompareLiterals(a, op, b) == CompareLiterals(b, MirrorComparisonOperator(op), a)
  {
  }

  lemma ComparedMirrors(a: Literal, op: Operator, b: Literal)
    ensures Compared(a, op, b) == Compared(b, MirrorComparisonOperator(op), a)
  {
    MirrorMeans(a, op, b);
    MirrorMeans(AsNumber(a), op, AsNumber(b));
  }

  /** What a built condition says, if it is a comparison or a constant. */
  function BuiltTruth(row: Row, c: Condition): Truth {
    match c
    case Constant(b) => Of(b)
    case Comparison(lhs, op, rhs) => ComparisonTruth(row, lhs, op, rhs)
    case _ => Null
  }

  /** The comparison of two built values, as the tree has it. */
  function Compare2(l: ValueExpr, op: Operator, r: ValueExpr): Condition {
    if l.Lit? && r.Lit? then Constant(CompareLiterals(l.value, op, r.value) == Some(true))
    else if l.Lit? then Comparison(r, MirrorComparisonOperator(op), l)
    else Comparison(l, op, r)
  }

  lemma BuiltComparison(pc: Context, op: Operator, lhs: Term, rhs: Term)
    requires BuildComparison(pc, op, lhs, rhs).Some?
    ensures BuildValue(pc, lhs).Some? && BuildValue(pc, rhs).Some?
    ensures var l, r := BuildValue(pc, lhs).value, BuildValue(pc, rhs).value;
      && BuildComparison(pc, op, lhs, rhs).value == Compare2(l, op, r)
      && (l.Lit? && r.Lit? ==> CompareLiterals(l.value, op, r.value).Some?)
  {
  }

  lemma Compare2Means(row: Row, l: ValueExpr, op: Operator, r: ValueExpr)
    requires l.Lit? && r.Lit? ==> CompareLiterals(l.value, op, r.value).Some?
    ensures BuiltTruth(row, Compare2(l, op, r))
         == if r == Lit(Missing) then NullTest(ValueOf(row, l), op)
            else if l == Lit(Missing) then NullTest(ValueOf(row, r), op)
            else Compared(ValueOf(row, l), op, ValueOf(row, r))
  {
    if l.Lit? && !r.Lit? {
      ComparedMirrors(ValueOf(row, l), op, ValueOf(row, r));
      NullTestMirrors(ValueOf(row, r), op);
    }
  }

  /** The built comparison has the value of the written one, with literals on either side or both. */
  lemma ComparisonMeans(pc: Context, row: Row, op: Operator, lhs: Term, rhs: Term)
    requires BuildComparison(pc, op, lhs, rhs).Some?
    ensures ConditionTruth(row, BuildComparison(pc, op, lhs, rhs).value) == CompareTruth(pc, row, op, lhs, rhs)
  {
    BuiltComparison(pc, op, lhs, rhs);
    BuildValueMeans(pc, row, lhs);
    BuildValueMeans(pc, row, rhs);
    var l, r := BuildValue(pc, lhs).value, BuildValue(pc, rhs).value;
    Compare2Means(row, l, op, r);
    BuiltIsTruth(row, Compare2(l, op, r));
  }

  lemma NullTestMirrors(v: Literal, op: Operator)
    ensures NullTest(v, MirrorComparisonOperator(op)) == NullTest(v, op)
  {
  }

  /** What a chain of memberships says: the values are all elements, or one of them is. */
  function ChainTruth(op: Connective, tags: set<string>, values: set<string>): bool {
    if op == Conj then values <= tags else tags * values != {}
  }

  lemma ChainGrows(op: Connective, tags: set<string>, done: set<string>, s: string)
    ensures Combine(Joint(op), Of(ChainTruth(op, tags, done)), Of(s in tags)) == Of(ChainTruth(op, tags, done + {s}))
  {
    assert tags * (done + {s}) == tags * done + (if s in tags then {s} else {});
  }

  lemma MembershipMeans(row: Row, field: string, s: string)
    ensures ConditionTruth(row, Membership(field, s)) == Of(s in Items(row.list(field)))
  {
    ElementMeans(row, Lit(Text(s)), field);
  }

  lemma LogicalMeans(row: Row, op: Connective, l: Condition, r: Condition)
    ensures ConditionTruth(row, Logical(op, l, r)) == Combine(Joint(op), ConditionTruth(row, l), ConditionTruth(row, r))
  {
  }

  lemma ChainStep(op: Connective, first: Condition, field: string, others: seq<string>)
    requires others != []
    ensures CombineFrom(op, first, Memberships(field, others))
         == CombineFrom(op, Logical(op, first, Membership(field, others[0])), Memberships(field, others[1..]))
  {
    assert Memberships(field, others)[1..] == Memberships(field, others[1..]);
  }

  /** A chain of memberships is a subset test, or a test for a common element. */
  lemma {:induction false} MembershipsMean(row: Row, field: string, op: Connective, first: Condition, done: set<string>,
                                           others: seq<string>)
    requires ConditionTruth(row, first) == Of(ChainTruth(op, Items(row.list(field)), done))
    ensures ConditionTruth(row, CombineFrom(op, first, Memberships(field, others)))
         == Of(ChainTruth(op, Items(row.list(field)), done + Items(others)))
    decreases others
  {
    var tags := Items(row.list(field));
    if others == [] {
      assert done + Items(others) == done;
    } else {
      var s := others[0];
      MembershipMeans(row, field, s);
      LogicalMeans(row, op, first, Membership(field, s));
      ChainGrows(op, tags, done, s);
      MembershipsMean(row, field, op, Logical(op, first, Membership(field, s)), done + {s}, others[1..]);
      ChainStep(op, first, field, others);
      FirstItem(others);
      assert done + {s} + Items(others[1..]) == done + Items(others);
    }
  }

  lemma FirstItem(s: seq<string>)
    requires s != []
    ensures Items(s) == {s[0]} + Items(s[1..])
  {
    assert s == [s[0]] + s[1..];
  }

  lemma AllMembershipsMean(row: Row, field: string, op: Connective, values: seq<string>)
    requires values != []
    ensures ConditionTruth(row, CombineFrom(op, Membership(field, values[0]), Memberships(field, values[1..])))
         == Of(ChainTruth(op, Items(row.list(field)), Items(values)))
  {
    var tags, v := Items(row.list(field)), values[0];
    MembershipMeans(row, field, v);
    assert tags * {v} == if v in tags then {v} else {};
    MembershipsMean(row, field, op, Membership(field, v), {v}, values[1..]);
    FirstItem(values);
  }

  lemma {:induction false} DistinctItems(values: seq<string>, seen: set<string>)
    ensures Items(Distinct(values, seen)) == Items(values) - seen
    ensures NoDuplicates(Distinct(values, seen))
  {
    if values != [] {
      var v, seenNext := values[0], seen + {values[0]};
      assert Items(values) == {v} + Items(values[1..]);
      if v in seen {
        DistinctItems(values[1..], seen);
      } else {
        DistinctItems(values[1..], seenNext);
        var d := Distinct(values[1..], seenNext);
        assert Items([v] + d) == {v} + Items(d);
        assert v !in d by { assert v !in Items(d); }
      }
    }
  }

  lemma {:induction false} ItemsCount(s: seq<string>)
    ensures |Items(s)| <= |s|
    ensures |Items(s)| == |s| <==> NoDuplicates(s)
  {
    if s == [] {
      assert Items(s) == {};
    } else {
      var rest := s[1..];
      ItemsCount(rest);
      assert Items(s) == {s[0]} + Items(rest);
      if s[0] in rest {
        assert Items(s) == Items(rest);
        var k :| 0 <= k < |rest| && rest[k] == s[0];
        assert s[k + 1] == s[0];
      } else if NoDuplicates(rest) {
        forall i, j | 0 <= i < j < |s| ensures s[i] != s[j] {
          assert s[j] == rest[j - 1] && s[j] in rest;
          if i > 0 { assert s[i] == rest[i - 1]; }
        }
      } else {
        var i, j :| 0 <= i < j < |rest| && rest[i] == rest[j];
        assert s[i + 1] == s[j + 1];
      }
    }
  }

  lemma SubsetOfSameSize(a: set<string>, b: set<string>)
    requires a <= b && |a| == |b|
    ensures a == b
  {
    assert |b - a| == 0;
  }

  /** A list holds all of a list without duplicates and is as long, exactly when it has the same
      elements and no duplicates either. */
  lemma SizeDecides(tags: seq<string>, d: seq<string>)
    requires NoDuplicates(d)
    ensures Items(d) <= Items(tags) && |tags| == |d| <==> Items(tags) == Items(d) && NoDuplicates(tags)
  {
    ItemsCount(tags);
    ItemsCount(d);
    if Items(d) <= Items(tags) && |tags| == |d| {
      SubsetCount(Items(d), Items(tags));
      SubsetOfSameSize(Items(d), Items(tags));
    }
  }

  /** Membership and size together say that a list without duplicates is the set; on a list with
      duplicates they never hold. */
  lemma EquivalentMeans(row: Row, field: string, values: seq<string>)
    requires row.size(field) == Number(|row.list(field)|)
    ensures ConditionTruth(row, SetCondition(SetEquivalent, field, values))
         == Of(Items(row.list(field)) == Items(values) && NoDuplicates(row.list(field)))
  {
    var tags, d := row.list(field), Distinct(values, {});
    DistinctItems(values, {});
    SizeDecides(tags, d);
    SizeEqualsMeans(row, field, |d|);
    if d != [] {
      AllMembershipsMean(row, field, Conj, d);
      var all := CombineFrom(Conj, Membership(field, d[0]), Memberships(field, d[1..]));
      LogicalMeans(row, Conj, all, SizeEquals(field, |d|));
    } else {
      assert Items(d) == {};
    }
  }

  lemma SizeEqualsMeans(row: Row, field: string, n: nat)
    requires row.size(field) == Number(|row.list(field)|)
    ensures ConditionTruth(row, SizeEquals(field, n)) == Of(|row.list(field)| == n)
  {
    BuiltIsTruth(row, SizeEquals(field, n));
  }

  lemma SubsetCount(a: set<string>, b: set<string>)
    requires a <= b
    ensures |a| <= |b|
  {
    assert a + (b - a) == b;
  }

  /** The desugared set operation has the value of the set operation on exactly the rows where it is
      not an equivalence that only duplicates spoil. */
  lemma SetMeans(row: Row, operation: SetOperation, field: string, values: seq<string>)
    requires row.size(field) == Number(|row.list(field)|)
    ensures var tags := row.list(field);
      var truth := SetTruth(operation, Items(tags), Items(values));
      (ConditionTruth(row, SetCondition(operation, field, values)) == Of(truth))
      <==> (operation.SetEquivalent? && truth ==> NoDuplicates(tags))
  {
    match operation
    case SetEquivalent => EquivalentMeans(row, field, values);
    case SetContains =>
      if values != [] { AllMembershipsMean(row, field, Conj, values); } else { assert Items(values) == {}; }
    case SetIntersects =>
      if values != [] { AllMembershipsMean(row, field, Disj, values); } else { assert Items(values) == {}; }
  }

  /** A row whose list holds "a" twice: the list is equivalent to ["a"], and the built condition says no. */
  function Twice(fold: Folding): Row {
    Row(fold, (name: string) => Missing, (name: string) => ["a", "a"], (name: string) => Number(2),
        (field: string, part: string) => Missing, (subject: string, pattern: string) => Null)
  }

  lemma DuplicatesSpoilEquivalence(fold: Folding, field: string)
    ensures var row := Twice(fold);
      && SetTruth(SetEquivalent, Items(row.list(field)), Items(["a"]))
      && ConditionTruth(row, SetCondition(SetEquivalent, field, ["a"])) == False
  {
    var row := Twice(fold);
    assert Items(["a", "a"]) == Items(["a"]) by { assert forall x :: x in ["a", "a"] <==> x in ["a"]; }
    assert !NoDuplicates(["a", "a"]) by { assert ["a", "a"][0] == ["a", "a"][1]; }
    EquivalentMeans(row, field, ["a"]);
  }

  /** Rows as the source keeps them: list fields hold no duplicates, and their size is their length. */
  ghost predicate Kept(schema: Schema, row: Row) {
    forall name | name in schema && schema[name].kind == JsonList ::
      row.size(name) == Number(|row.list(name)|) && NoDuplicates(row.list(name))
  }

  /** Building the condition tree keeps the meaning of every filter it accepts, on every row. */
  lemma InFieldMeans(pc: Context, row: Row, element: Term, list: string)
    requires BuildCondition(pc, InField(element, list)).Some?
    ensures ConditionTruth(row, BuildCondition(pc, InField(element, list)).value)
         == ExprTruth(pc, row, InField(element, list))
  {
    InFieldBuilds(pc, element, list);
    BuildValueMeans(pc, row, element);
    ElementMeans(row, BuildValue(pc, element).value, list);
  }

  lemma TextExprMeans(pc: Context, row: Row, mode: TextMode, target: string, text: Literal)
    requires BuildCondition(pc, TextExpr(mode, target, text)).Some?
    ensures ConditionTruth(row, BuildCondition(pc, TextExpr(mode, target, text)).value)
         == ExprTruth(pc, row, TextExpr(mode, target, text))
  {
    TextExprBuilds(pc, mode, target, text);
    TextMatchTruth(row, target, mode, text.s);
  }

  lemma {:induction false} BuildMeans(pc: Context, row: Row, e: Expr)
    requires BuildCondition(pc, e).Some? && Kept(pc.schema, row)
    ensures ConditionTruth(row, BuildCondition(pc, e).value) == ExprTruth(pc, row, e)
  {
    match e {
      case AndExpr(left, right) =>
        BuildMeans(pc, row, left);
        BuildMeans(pc, row, right);
        LogicalMeans(row, Conj, BuildCondition(pc, left).value, BuildCondition(pc, right).value);
      case OrExpr(left, right) =>
        BuildMeans(pc, row, left);
        BuildMeans(pc, row, right);
        LogicalMeans(row, Disj, BuildCondition(pc, left).value, BuildCondition(pc, right).value);
      case NotExpr(child) => BuildMeans(pc, row, child);
      case CompareExpr(op, lhs, rhs) => ComparisonMeans(pc, row, op, lhs, rhs);
      case SetExpr(operation, field, members) => SetExprMeans(pc, row, operation, field, members);
      case InList(item, elements) => InListMeans(pc, row, item, elements);
      case InField(element, list) => InFieldMeans(pc, row, element, list);
      case MacroExpr(macro, source, test) => MacroMeans(pc, row, macro, source, test);
      case TextExpr(mode, target, text) => TextExprMeans(pc, row, mode, target, text);
      case _ => OtherMeans(pc, row, e);
    }
  }

  lemma InFieldBuilds(pc: Context, element: Term, list: string)
    requires BuildCondition(pc, InField(element, list)).Some?
    ensures BuildValue(pc, element).Some?
    ensures BuildCondition(pc, InField(element, list)).value == ElementIn(BuildValue(pc, element).value, list)
  {
  }

  lemma MacroMeans(pc: Context, row: Row, macro: Macro, source: string, test: Element)
    requires BuildCondition(pc, MacroExpr(macro, source, test)).Some?
    ensures ConditionTruth(row, BuildCondition(pc, MacroExpr(macro, source, test)).value)
         == ExprTruth(pc, row, MacroExpr(macro, source, test))
  {
    assert BuildCondition(pc, MacroExpr(macro, source, test)).value == Comprehension(macro, source, test);
  }

  lemma TextExprBuilds(pc: Context, mode: TextMode, target: string, text: Literal)
    requires BuildCondition(pc, TextExpr(mode, target, text)).Some?
    ensures text.Text? && BuildCondition(pc, TextExpr(mode, target, text)).value == TextMatch(target, mode, text.s)
  {
  }

  lemma TextMatchTruth(row: Row, target: string, mode: TextMode, text: string)
    ensures ConditionTruth(row, TextMatch(target, mode, text)) == TextTruth(row.fold, row.column(target), mode, text)
  {
    var c := TextMatch(target, mode, text);
    assert c.TextMatch? && c.column == target && c.mode == mode && c.text == text;
  }

  lemma OtherMeans(pc: Context, row: Row, e: Expr)
    requires BuildCondition(pc, e).Some? && (e.MatchesExpr? || e.IdentExpr? || e.ConstExpr?)
    ensures ConditionTruth(row, BuildCondition(pc, e).value) == ExprTruth(pc, row, e)
  {
  }

  lemma MacroTruth(row: Row, macro: Macro, source: string, test: Element)
    ensures ConditionTruth(row, Comprehension(macro, source, test))
        == Of(MacroHolds(row.fold, macro, row.list(source), test))
  {
  }

  lemma ElementMeans(row: Row, element: ValueExpr, list: string)
    ensures ConditionTruth(row, ElementIn(element, list)) == Of(Member(ValueOf(row, element), row.list(list)))
  {
  }

  lemma InScalarMeans(row: Row, name: string, values: seq<Literal>)
    requires name != "tag"
    ensures InTruth(row, name, values) == AnyEqual(row.column(name), values)
  {
  }

  lemma InMeans(row: Row, name: string, values: seq<ValueExpr>)
    ensures ConditionTruth(row, In(FieldRef(name), values)) == InTruth(row, name, ValuesOf(row, values))
  {
  }

  lemma SetExprMeans(pc: Context, row: Row, operation: SetOperation, field: string, members: seq<Term>)
    requires BuildSet(pc, operation, field, members).Some? && Kept(pc.schema, row)
    ensures Strings(members).Some?
    ensures ConditionTruth(row, BuildSet(pc, operation, field, members).value)
         == Of(SetTruth(operation, Items(row.list(field)), Items(Strings(members).value)))
  {
    SetMeans(row, operation, field, Strings(members).value);
  }

  lemma BuiltIsTruth(row: Row, c: Condition)
    requires c.Constant? || c.Comparison?
    ensures ConditionTruth(row, c) == BuiltTruth(row, c)
  {
  }

  lemma InListMeans(pc: Context, row: Row, item: Term, elements: seq<Term>)
    requires BuildIn(pc, item, elements).Some?
    ensures ConditionTruth(row, BuildIn(pc, item, elements).value)
        == InTruth(row, item.name, TermValues(pc, row, elements))
  {
    BuildValuesMean(pc, row, elements);
    InMeans(row, item.name, BuildValues(pc, elements).value);
  }

  // From the tree to its text.

  predicate IsLeaf(c: Condition) { !c.Logical? && !c.Negation? && !c.Constant? }

  /** The database gives the text of every leaf of the tree the value it has on the row. */
  ghost predicate LeavesAgree(db: Database, schema: Schema, row: Row, c: Condition) {
    match c
    case Constant(_) => true
    case Negation(child) => LeavesAgree(db, schema, row, child)
    case Logical(_, left, right) => LeavesAgree(db, schema, row, left) && LeavesAgree(db, schema, row, right)
    case _ => Leaf(schema, c).Some? ==> ClauseValue(db, Leaf(schema, c).value) == ConditionTruth(row, c)
  }

  lemma {:induction false} MeaningIsTruth(db: Database, schema: Schema, row: Row, c: Condition)
    requires LeavesAgree(db, schema, row, c) && Render(schema, c).Some?
    ensures Meaning(db, schema, c) == ConditionTruth(row, c)
  {
    match c
    case Constant(_) =>
    case Negation(child) => MeaningIsTruth(db, schema, row, child);
    case Logical(_, left, right) =>
      MeaningIsTruth(db, schema, row, left);
      MeaningIsTruth(db, schema, row, right);
    case _ => assert IsLeaf(c) && Leaf(schema, c).Some?;
  }

  /** A filter's statement has the filter's value on a row whose leaves the database values rightly,
      exactly when the tree is aligned and readable; it is left out only when the filter always holds. */
  lemma StatementIsTruth(db: Database, pc: Context, row: Row, e: Expr)
    requires PlainSchema(pc.schema) && Kept(pc.schema, row)
    requires BuildCondition(pc, e).Some? && Render(pc.schema, BuildCondition(pc, e).value).Some?
    requires LeavesAgree(db, pc.schema, row, BuildCondition(pc, e).value)
    ensures var c := BuildCondition(pc, e).value;
      var s := StatementOf(Render(pc.schema, c).value);
      if s.sql == [] then ExprTruth(pc, row, e) == True
      else Eval(db, s.sql, s.args) ==
           (if Aligned(pc.schema, c) && Readable(c) then Some(ExprTruth(pc, row, e)) else None)
  {
    var c := BuildCondition(pc, e).value;
    BuildMeans(pc, row, e);
    MeaningIsTruth(db, pc.schema, row, c);
    TextMeans(db, pc.schema, c);
    if Known(c) != Some(true) { StatementMeans(db, pc.schema, c); }
  }
}
