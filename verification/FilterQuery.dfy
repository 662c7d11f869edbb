/** Adding filters to the WHERE clause and the arguments of a query. */
module FilterQuery {
  import opened Lists
  import opened Options
  import opened Sql
  import opened FilterTree
  import opened FilterClauses
  import opened FilterRender

  /** The statements a list of filters adds, up to the first that does not compile, and whether all did.
      A filter that always holds adds nothing. */
  function Added(schema: Schema, filters: seq<Option<Condition>>): (seq<Statement>, bool) {
    if filters == [] then ([], true)
    else if filters[0].None? || Render(schema, filters[0].value).None? then ([], false)
    else
      var s, rest := StatementOf(Render(schema, filters[0].value).value), Added(schema, filters[1..]);
      if s.sql == [] then rest else ([Statement([Open] + s.sql + [Close], s.args)] + rest.0, rest.1)
  }

  function Wheres(parts: seq<Statement>): (r: seq<seq<Token>>)
    ensures |r| == |parts|
  {
    if parts == [] then [] else [parts[0].sql] + Wheres(parts[1..])
  }

  function Arguments(parts: seq<Statement>): seq<Value> {
    if parts == [] then [] else parts[0].args + Arguments(parts[1..])
  }

  /** The fragments of a WHERE clause, joined by AND. */
  function Joined(wheres: seq<seq<Token>>): seq<Token> {
    if wheres == [] then [] else if |wheres| == 1 then wheres[0] else wheres[0] + ([And] + Joined(wheres[1..]))
  }

  function Conjunction(values: seq<Truth>): Truth {
    if values == [] then True else And3(values[0], Conjunction(values[1..]))
  }

  /** A fragment that has a value with its own arguments. */
  ghost predicate Sound(db: Database, s: Statement, v: Truth) { ReadsAs(db, s.sql, s.args, v) }

  /** A fragment no query can hold: it has more arguments than placeholders, or `()` in it. */
  ghost predicate Broken(s: Statement) { Placeholders(s.sql) < |s.args| || Hollow(s.sql) }

  /** Every fragment is sound with its value, or broken; and it never lacks an argument. */
  ghost predicate Judged(db: Database, parts: seq<Statement>, values: seq<Truth>) {
    |parts| == |values| && forall i | 0 <= i < |parts| ::
      && Placeholders(parts[i].sql) <= |parts[i].args|
      && (Sound(db, parts[i], values[i]) || Broken(parts[i]))
  }

  ghost predicate AnyBroken(parts: seq<Statement>) { exists p :: p in parts && Broken(p) }

  lemma {:induction false} SoundQueryReads(db: Database, parts: seq<Statement>, values: seq<Truth>)
    requires parts != [] && |parts| == |values|
    requires forall i | 0 <= i < |parts| :: Sound(db, parts[i], values[i])
    ensures ReadsAsChain(db, And, Joined(Wheres(parts)), Arguments(parts), Conjunction(values))
  {
    var o := Operand(parts[0].sql, parts[0].args, values[0]);
    assert Sound(db, parts[0], values[0]);
    if |parts| == 1 {
      assert Arguments(parts) == o.args;
      assert Conjunction(values[1..]) == True;
      OneReads(db, And, o);
    } else {
      SoundQueryReads(db, parts[1..], values[1..]);
      JointReads(db, And, o, Joined(Wheres(parts[1..])), Arguments(parts[1..]), Conjunction(values[1..]));
    }
  }

  lemma {:induction false} QueryPlaceholders(parts: seq<Statement>)
    requires forall p | p in parts :: Placeholders(p.sql) <= |p.args|
    ensures Placeholders(Joined(Wheres(parts))) <= |Arguments(parts)|
    ensures (exists p :: p in parts && Placeholders(p.sql) < |p.args|)
      ==> Placeholders(Joined(Wheres(parts))) < |Arguments(parts)|
  {
    if parts != [] {
      var p, rest := parts[0], parts[1..];
      assert p in parts;
      QueryPlaceholders(rest);
      var tail := Joined(Wheres(rest));
      if rest != [] {
        PlaceholdersConcat(p.sql, [And] + tail);
        PlaceholdersBetween([And], tail, []);
        assert [And] + tail + [] == [And] + tail;
      }
    }
  }

  lemma {:induction false} QueryKeepsHollow(parts: seq<Statement>, p: Statement)
    requires p in parts && Hollow(p.sql)
    ensures Hollow(Joined(Wheres(parts)))
  {
    if |parts| > 1 {
      var tail := Joined(Wheres(parts[1..]));
      if p == parts[0] {
        HollowFront(p.sql, [And] + tail);
      } else {
        QueryKeepsHollow(parts[1..], p);
        HollowBack([And], tail);
        HollowBack(parts[0].sql, [And] + tail);
      }
    }
  }

  lemma HollowFront(s: seq<Token>, after: seq<Token>)
    requires Hollow(s)
    ensures Hollow(s + after)
  {
    HollowInside([], s, after);
    assert [] + s + after == s + after;
  }

  lemma HollowBack(before: seq<Token>, s: seq<Token>)
    requires Hollow(s)
    ensures Hollow(before + s)
  {
    HollowInside(before, s, []);
    assert before + s + [] == before + s;
  }

  /** A query has the conjunction of its fragments' values, or no value when one of them is broken. */
  lemma QueryValue(db: Database, parts: seq<Statement>, values: seq<Truth>)
    requires parts != [] && Judged(db, parts, values)
    ensures Eval(db, Joined(Wheres(parts)), Arguments(parts))
         == if AnyBroken(parts) then None else Some(Conjunction(values))
  {
    var sql, args := Joined(Wheres(parts)), Arguments(parts);
    if AnyBroken(parts) {
      var p :| p in parts && Broken(p);
      if Hollow(p.sql) {
        QueryKeepsHollow(parts, p);
        HollowHasNoValue(db, sql, args);
      } else {
        QueryPlaceholders(parts);
        ValueNeedsEveryArgument(db, sql, args);
      }
    } else {
      forall i | 0 <= i < |parts| ensures Sound(db, parts[i], values[i]) {
        assert parts[i] in parts;
      }
      SoundQueryReads(db, parts, values);
      assert Stops([]) && sql + [] == sql && args + [] == args;
      assert ReadOr(db, sql + [], args + []) == Some(Read(Conjunction(values), [], []));
    }
  }

  /** A filter whose text and arguments fit: it always holds, or it is aligned and readable. */
  predicate Fits(schema: Schema, c: Condition)
    requires Render(schema, c).Some?
  {
    Known(c) == Some(true) || (Aligned(schema, c) && Readable(c))
  }

  ghost predicate AllRender(schema: Schema, filters: seq<Condition>) {
    forall c | c in filters :: Render(schema, c).Some?
  }

  function Compiled(filters: seq<Condition>): seq<Option<Condition>> {
    if filters == [] then [] else [Some(filters[0])] + Compiled(filters[1..])
  }

  /** The meanings of the filters that add a fragment. */
  function Values(db: Database, schema: Schema, filters: seq<Condition>): seq<Truth>
    requires AllRender(schema, filters)
  {
    if filters == [] then []
    else
      (if Known(filters[0]) == Some(true) then [] else [Meaning(db, schema, filters[0])])
      + Values(db, schema, filters[1..])
  }

  /** The meanings of all the filters. */
  function Meanings(db: Database, schema: Schema, filters: seq<Condition>): seq<Truth>
    requires AllRender(schema, filters)
  {
    if filters == [] then [] else [Meaning(db, schema, filters[0])] + Meanings(db, schema, filters[1..])
  }

  /** The fragment a filter adds. */
  function Part(schema: Schema, c: Condition): Statement
    requires Render(schema, c).Some?
  {
    var s := StatementOf(Render(schema, c).value);
    Statement([Open] + s.sql + [Close], s.args)
  }

  function Parts(schema: Schema, filters: seq<Condition>): seq<Statement>
    requires AllRender(schema, filters)
  {
    if filters == [] then []
    else (if Known(filters[0]) == Some(true) then [] else [Part(schema, filters[0])]) + Parts(schema, filters[1..])
  }

  lemma {:induction false} AddedAreParts(schema: Schema, filters: seq<Condition>)
    requires PlainSchema(schema) && AllRender(schema, filters)
    ensures Added(schema, Compiled(filters)) == (Parts(schema, filters), true)
  {
    if filters != [] {
      var c := filters[0];
      assert c in filters;
      AddedAreParts(schema, filters[1..]);
      assert Compiled(filters)[0] == Some(c) && Compiled(filters)[1..] == Compiled(filters[1..]);
      TextIsThere(schema, c);
      assert Parts(schema, filters)
        == if Known(c) == Some(true) then Parts(schema, filters[1..])
           else [Part(schema, c)] + Parts(schema, filters[1..]);
    }
  }

  lemma TextIsThere(schema: Schema, c: Condition)
    requires PlainSchema(schema) && Render(schema, c).Some?
    ensures StatementOf(Render(schema, c).value).sql == [] <==> Known(c) == Some(true)
  {
    TextMeans((text, args) => False, schema, c);
  }

  lemma FittingPartIsSound(db: Database, schema: Schema, c: Condition)
    requires PlainSchema(schema) && Render(schema, c).Some? && Known(c) != Some(true) && Fits(schema, c)
    ensures Sound(db, Part(schema, c), Meaning(db, schema, c))
  {
    var s, v := StatementOf(Render(schema, c).value), Meaning(db, schema, c);
    SurvivorsCount(schema, c);
    FlagsAreKnown(schema, c);
    RenderReads(db, schema, c);
    if Known(c) == Some(false) {
      NoMark(FALSE);
      AtomReads(db, FALSE, []);
    }
    OneReads(db, And, Operand(s.sql, s.args, v));
    GroupReads(db, And, s.sql, s.args, v);
  }

  lemma OtherPartIsBroken(db: Database, schema: Schema, c: Condition)
    requires PlainSchema(schema) && Render(schema, c).Some? && Known(c) != Some(true)
    ensures Placeholders(Part(schema, c).sql) <= |Part(schema, c).args|
    ensures !Fits(schema, c) ==> Broken(Part(schema, c))
  {
    var s := StatementOf(Render(schema, c).value);
    TextMeans(db, schema, c);
    SurvivorsCount(schema, c);
    PlaceholdersBetween([Open], s.sql, [Close]);
    if !Readable(c) {
      FlagsAreKnown(schema, c);
      UnreadableIsHollow(schema, c);
      HollowInside([Open], s.sql, [Close]);
    }
  }

  lemma SoundIsNotBroken(db: Database, s: Statement, v: Truth)
    requires Sound(db, s, v)
    ensures Placeholders(s.sql) == |s.args| && !Broken(s)
  {
    WholeReads(db, s.sql, s.args, v);
    HollowHasNoValue(db, s.sql, s.args);
  }

  ghost predicate AllFit(schema: Schema, filters: seq<Condition>)
    requires AllRender(schema, filters)
  {
    forall c | c in filters :: Fits(schema, c)
  }

  lemma {:induction false} PartsAreJudged(db: Database, schema: Schema, filters: seq<Condition>)
    requires PlainSchema(schema) && AllRender(schema, filters)
    ensures Judged(db, Parts(schema, filters), Values(db, schema, filters))
    ensures AnyBroken(Parts(schema, filters)) <==> !AllFit(schema, filters)
  {
    if filters != [] {
      var c, rest := filters[0], filters[1..];
      assert c in filters && AllRender(schema, rest);
      PartsAreJudged(db, schema, rest);
      if Known(c) != Some(true) {
        OtherPartIsBroken(db, schema, c);
        if Fits(schema, c) {
          FittingPartIsSound(db, schema, c);
          SoundIsNotBroken(db, Part(schema, c), Meaning(db, schema, c));
        }
        JudgedBoth(db, [Part(schema, c)], [Meaning(db, schema, c)], Parts(schema, rest), Values(db, schema, rest));
      }
      assert AllFit(schema, filters) <==> Fits(schema, c) && AllFit(schema, rest) by { assert filters == [c] + rest; }
    }
  }

  lemma JudgedBoth(db: Database, a: seq<Statement>, av: seq<Truth>, b: seq<Statement>, bv: seq<Truth>)
    requires Judged(db, a, av) && Judged(db, b, bv)
    ensures Judged(db, a + b, av + bv)
    ensures AnyBroken(a + b) <==> AnyBroken(a) || AnyBroken(b)
    ensures |a| == 1 ==> (AnyBroken(a) <==> Broken(a[0]))
  {
    BrokenBoth(a, b);
    assert |a| == 1 ==> a[0] in a;
  }

  lemma BrokenBoth(a: seq<Statement>, b: seq<Statement>)
    ensures AnyBroken(a + b) <==> AnyBroken(a) || AnyBroken(b)
  {
    forall p | p in a || p in b ensures p in a + b {}
    if AnyBroken(a + b) {
      var p :| p in a + b && Broken(p);
      assert p in a || p in b;
    }
  }

  lemma {:induction false} SilentFiltersAreTrue(db: Database, schema: Schema, filters: seq<Condition>)
    requires PlainSchema(schema) && AllRender(schema, filters)
    ensures Conjunction(Values(db, schema, filters)) == Conjunction(Meanings(db, schema, filters))
  {
    if filters != [] {
      assert filters[0] in filters;
      var m, rest := Meaning(db, schema, filters[0]), filters[1..];
      SilentFiltersAreTrue(db, schema, rest);
      TextMeans(db, schema, filters[0]);
      ConjunctionOfBoth([m], Values(db, schema, rest));
      ConjunctionOfBoth([m], Meanings(db, schema, rest));
      assert [] + Values(db, schema, rest) == Values(db, schema, rest);
    }
  }

  lemma SoundAreJudged(db: Database, base: seq<Statement>, values: seq<Truth>)
    requires |base| == |values| && forall i | 0 <= i < |base| :: Sound(db, base[i], values[i])
    ensures Judged(db, base, values) && !AnyBroken(base)
  {
    forall i | 0 <= i < |base| ensures Placeholders(base[i].sql) <= |base[i].args| && !Broken(base[i]) {
      SoundIsNotBroken(db, base[i], values[i]);
    }
  }

  /** Filters added to a query that was sound narrow it by all their meanings, exactly when every
      filter fits; else the query has no value. */
  lemma FiltersNarrowTheQuery(db: Database, schema: Schema, base: seq<Statement>, values: seq<Truth>,
                              filters: seq<Condition>)
    requires PlainSchema(schema) && AllRender(schema, filters)
    requires base != [] && |base| == |values|
    requires forall i | 0 <= i < |base| :: Sound(db, base[i], values[i])
    ensures var parts := base + Added(schema, Compiled(filters)).0;
      Eval(db, Joined(Wheres(parts)), Arguments(parts))
        == if AllFit(schema, filters)
           then Some(And3(Conjunction(values), Conjunction(Meanings(db, schema, filters)))) else None
  {
    var added, vs := Parts(schema, filters), Values(db, schema, filters);
    AddedAreParts(schema, filters);
    PartsAreJudged(db, schema, filters);
    SoundAreJudged(db, base, values);
    JudgedBoth(db, base, values, added, vs);
    QueryValue(db, base + added, values + vs);
    ConjunctionOfBoth(values, vs);
    SilentFiltersAreTrue(db, schema, filters);
  }

  lemma {:induction false} ConjunctionOfBoth(a: seq<Truth>, b: seq<Truth>)
    ensures Conjunction(a + b) == And3(Conjunction(a), Conjunction(b))
  {
    if a == [] {
      assert a + b == b;
    } else {
      FrontOfBoth(a, b);
      ConjunctionOfBoth(a[1..], b);
    }
  }
}
