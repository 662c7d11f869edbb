/** The fragment of SQL the filter compiler emits: a WHERE expression as text pieces, read with
    SQL's own precedence (NOT over AND over OR), valued in three-valued logic, with positional
    arguments taken in order. */
module Sql {
  import opened Lists
  import opened Options

  datatype Truth = True | False | Null

  function And3(a: Truth, b: Truth): Truth {
    if a == False || b == False then False else if a == True && b == True then True else Null
  }

  function Or3(a: Truth, b: Truth): Truth {
    if a == True || b == True then True else if a == False && b == False then False else Null
  }

  function Not3(a: Truth): Truth {
    match a case True => False case False => True case Null => Null
  }

  function Of(b: bool): Truth { if b then True else False }

  /** Argument values. */
  datatype Value = Str(s: string) | Int(i: int)

  datatype Token = Open | Close | And | Or | Not | Atom(text: string)

  /** The number of placeholders in a text. */
  function Marks(text: string): nat {
    if text == "" then 0 else (if text[0] == '?' then 1 else 0) + Marks(text[1..])
  }

  lemma {:induction false} MarksConcat(a: string, b: string)
    ensures Marks(a + b) == Marks(a) + Marks(b)
  {
    if a == "" {
      assert a + b == b;
    } else {
      FrontOfBoth(a, b);
      MarksConcat(a[1..], b);
    }
  }

  /** The placeholders of an expression. */
  function Placeholders(sql: seq<Token>): nat {
    if sql == [] then 0 else (if sql[0].Atom? then Marks(sql[0].text) else 0) + Placeholders(sql[1..])
  }

  lemma {:induction false} PlaceholdersConcat(a: seq<Token>, b: seq<Token>)
    ensures Placeholders(a + b) == Placeholders(a) + Placeholders(b)
  {
    if a == [] {
      assert a + b == b;
    } else {
      FrontOfBoth(a, b);
      PlaceholdersConcat(a[1..], b);
    }
  }

  /** How a database values an atomic predicate with its arguments. The constant false is what it says. */
  type Database = d: (string, seq<Value>) -> Truth | d(FALSE, []) == False witness (text, args) => False

  const FALSE: string := "1 = 0"

  /** A value read off the front, and what is left of the text and of the arguments. */
  datatype Read = Read(value: Truth, rest: seq<Token>, args: seq<Value>)

  function ReadPrimary(db: Database, sql: seq<Token>, args: seq<Value>): (r: Option<Read>)
    ensures r.Some? ==> |r.value.rest| < |sql|
    decreases |sql|, 0
  {
    if sql == [] then None
    else if sql[0].Atom? then
      var n := Marks(sql[0].text);
      if n <= |args| then Some(Read(db(sql[0].text, args[..n]), sql[1..], args[n..])) else None
    else if sql[0] == Open then
      var inner := ReadOr(db, sql[1..], args);
      if inner.Some? && inner.value.rest != [] && inner.value.rest[0] == Close
      then Some(inner.value.(rest := inner.value.rest[1..])) else None
    else None
  }

  function ReadNot(db: Database, sql: seq<Token>, args: seq<Value>): (r: Option<Read>)
    ensures r.Some? ==> |r.value.rest| < |sql|
    decreases |sql|, 1
  {
    if sql != [] && sql[0] == Not then
      var inner := ReadNot(db, sql[1..], args);
      if inner.Some? then Some(inner.value.(value := Not3(inner.value.value))) else None
    else ReadPrimary(db, sql, args)
  }

  function ReadAnd(db: Database, sql: seq<Token>, args: seq<Value>): (r: Option<Read>)
    ensures r.Some? ==> |r.value.rest| < |sql|
    decreases |sql|, 2
  {
    var left := ReadNot(db, sql, args);
    if left.Some? && left.value.rest != [] && left.value.rest[0] == And then
      var right := ReadAnd(db, left.value.rest[1..], left.value.args);
      if right.Some? then Some(right.value.(value := And3(left.value.value, right.value.value))) else None
    else left
  }

  function ReadOr(db: Database, sql: seq<Token>, args: seq<Value>): (r: Option<Read>)
    ensures r.Some? ==> |r.value.rest| < |sql|
    decreases |sql|, 3
  {
    var left := ReadAnd(db, sql, args);
    if left.Some? && left.value.rest != [] && left.value.rest[0] == Or then
      var right := ReadOr(db, left.value.rest[1..], left.value.args);
      if right.Some? then Some(right.value.(value := Or3(left.value.value, right.value.value))) else None
    else left
  }

  /** The value of a whole expression with exactly its arguments; none if it is malformed or the
      arguments do not fit. */
  function Eval(db: Database, sql: seq<Token>, args: seq<Value>): Option<Truth> {
    var r := ReadOr(db, sql, args);
    if r.Some? && r.value.rest == [] && r.value.args == [] then Some(r.value.value) else None
  }

  /** The text reads as one operand of NOT, AND and OR, wherever it stands and whatever follows. */
  ghost predicate ReadsAs(db: Database, sql: seq<Token>, args: seq<Value>, v: Truth) {
    forall rest, more :: ReadNot(db, sql + rest, args + more) == Some(Read(v, rest, more))
  }

  lemma AtomReads(db: Database, text: string, args: seq<Value>)
    requires |args| == Marks(text)
    ensures ReadsAs(db, [Atom(text)], args, db(text, args))
  {
    forall rest, more
      ensures ReadNot(db, [Atom(text)] + rest, args + more) == Some(Read(db(text, args), rest, more))
    {
      assert (args + more)[..|args|] == args && (args + more)[|args|..] == more;
      assert ([Atom(text)] + rest)[1..] == rest;
    }
  }

  /** One operand of a conjunction or a disjunction: its text, its arguments and its value. */
  datatype Operand = Operand(sql: seq<Token>, args: seq<Value>, value: Truth)

  /** What may follow an expression: a closing parenthesis or nothing. */
  predicate Stops(rest: seq<Token>) {
    rest == [] || rest[0] == Close
  }

  /** The text reads as a chain of operands of AND, or of OR, wherever it ends. */
  ghost predicate ReadsAsChain(db: Database, joint: Token, sql: seq<Token>, args: seq<Value>, v: Truth) {
    forall rest, more | Stops(rest) ::
      && ReadOr(db, sql + rest, args + more) == Some(Read(v, rest, more))
      && (joint == And ==> ReadAnd(db, sql + rest, args + more) == Some(Read(v, rest, more)))
  }

  lemma OneReads(db: Database, joint: Token, o: Operand)
    requires ReadsAs(db, o.sql, o.args, o.value)
    ensures ReadsAsChain(db, joint, o.sql, o.args, o.value)
  {
    forall rest, more | Stops(rest)
      ensures ReadAnd(db, o.sql + rest, o.args + more) == Some(Read(o.value, rest, more))
      ensures ReadOr(db, o.sql + rest, o.args + more) == Some(Read(o.value, rest, more))
    {
      assert ReadNot(db, o.sql + rest, o.args + more) == Some(Read(o.value, rest, more));
    }
  }

  function Combine(joint: Token, a: Truth, b: Truth): Truth {
    if joint == And then And3(a, b) else Or3(a, b)
  }

  lemma ReadJoint(db: Database, joint: Token, sql: seq<Token>, args: seq<Value>, v: Truth,
                  right: seq<Token>, later: seq<Value>, w: Truth, rest: seq<Token>, more: seq<Value>)
    requires joint == And || joint == Or
    requires Stops(rest) && ReadNot(db, sql, args) == Some(Read(v, [joint] + right, later))
    requires ReadOr(db, right, later) == Some(Read(w, rest, more))
    requires joint == And ==> ReadAnd(db, right, later) == Some(Read(w, rest, more))
    ensures ReadOr(db, sql, args) == Some(Read(Combine(joint, v, w), rest, more))
    ensures joint == And ==> ReadAnd(db, sql, args) == Some(Read(Combine(joint, v, w), rest, more))
  {
    var tail := [joint] + right;
    assert tail[0] == joint && tail[1..] == right;
    if joint == And {
      assert ReadAnd(db, sql, args) == Some(Read(Combine(joint, v, w), rest, more));
    } else {
      assert ReadAnd(db, sql, args) == Some(Read(v, tail, later));
    }
  }

  lemma JointReads(db: Database, joint: Token, o: Operand, sql: seq<Token>, args: seq<Value>, v: Truth)
    requires joint == And || joint == Or
    requires ReadsAs(db, o.sql, o.args, o.value) && ReadsAsChain(db, joint, sql, args, v)
    ensures ReadsAsChain(db, joint, o.sql + ([joint] + sql), o.args + args, Combine(joint, o.value, v))
  {
    var w := Combine(joint, o.value, v);
    forall rest, more | Stops(rest)
      ensures ReadOr(db, o.sql + ([joint] + sql) + rest, o.args + args + more) == Some(Read(w, rest, more))
      ensures joint == And ==>
          ReadAnd(db, o.sql + ([joint] + sql) + rest, o.args + args + more) == Some(Read(w, rest, more))
    {
      var tail := [joint] + (sql + rest);
      Assoc(o.sql, [joint] + sql, rest);
      Assoc([joint], sql, rest);
      Assoc(o.args, args, more);
      assert ReadNot(db, o.sql + tail, o.args + (args + more)) == Some(Read(o.value, tail, args + more));
      ReadJoint(db, joint, o.sql + tail, o.args + (args + more), o.value, sql + rest, args + more, v, rest, more);
    }
  }

  lemma OpenReads(db: Database, inner: seq<Token>, args: seq<Value>, v: Truth, rest: seq<Token>, more: seq<Value>)
    requires ReadOr(db, inner + ([Close] + rest), args) == Some(Read(v, [Close] + rest, more))
    ensures ReadNot(db, [Open] + inner + [Close] + rest, args) == Some(Read(v, rest, more))
  {
    var sql := [Open] + inner + [Close] + rest;
    assert sql[1..] == inner + ([Close] + rest) && sql[0] == Open;
    assert ([Close] + rest)[1..] == rest;
    assert ReadPrimary(db, sql, args) == Some(Read(v, rest, more));
  }

  /** A parenthesized chain reads as one operand. */
  lemma GroupReads(db: Database, joint: Token, sql: seq<Token>, args: seq<Value>, v: Truth)
    requires ReadsAsChain(db, joint, sql, args, v)
    ensures ReadsAs(db, [Open] + sql + [Close], args, v)
  {
    forall rest, more
      ensures ReadNot(db, [Open] + sql + [Close] + rest, args + more) == Some(Read(v, rest, more))
    {
      assert ReadOr(db, sql + ([Close] + rest), args + more) == Some(Read(v, [Close] + rest, more));
      OpenReads(db, sql, args + more, v, rest, more);
    }
  }

  lemma NotReads(db: Database, inner: seq<Token>, args: seq<Value>, v: Truth)
    requires ReadsAs(db, inner, args, v)
    ensures ReadsAs(db, [Not, Open] + inner + [Close], args, Not3(v))
  {
    OneReads(db, And, Operand(inner, args, v));
    GroupReads(db, And, inner, args, v);
    var group := [Open] + inner + [Close];
    forall rest, more
      ensures ReadNot(db, [Not, Open] + inner + [Close] + rest, args + more) == Some(Read(Not3(v), rest, more))
    {
      assert ([Not, Open] + inner + [Close] + rest)[1..] == group + rest;
      assert ReadNot(db, group + rest, args + more) == Some(Read(v, rest, more));
    }
  }

  /** A parenthesized conjunction or disjunction of two operands reads as one. */
  lemma PairReads(db: Database, joint: Token, a: Operand, b: Operand)
    requires joint == And || joint == Or
    requires ReadsAs(db, a.sql, a.args, a.value) && ReadsAs(db, b.sql, b.args, b.value)
    ensures ReadsAs(db, [Open] + a.sql + [joint] + b.sql + [Close], a.args + b.args, Combine(joint, a.value, b.value))
  {
    OneReads(db, joint, b);
    JointReads(db, joint, a, b.sql, b.args, b.value);
    GroupReads(db, joint, a.sql + ([joint] + b.sql), a.args + b.args, Combine(joint, a.value, b.value));
    assert [Open] + (a.sql + ([joint] + b.sql)) + [Close] == [Open] + a.sql + [joint] + b.sql + [Close];
  }

  /** Reading takes exactly one argument for each placeholder read. */
  lemma {:induction false} ReadTakesPlaceholders(db: Database, sql: seq<Token>, args: seq<Value>, level: nat)
    requires level < 4
    ensures ReadAt(db, sql, args, level).Some? ==>
      var r := ReadAt(db, sql, args, level).value;
      |args| - |r.args| == Placeholders(sql) - Placeholders(r.rest)
    decreases |sql|, level
  {
    if level == 0 {
      if sql != [] && sql[0] == Open {
        ReadTakesPlaceholders(db, sql[1..], args, 3);
      }
    } else if level == 1 && sql != [] && sql[0] == Not {
      ReadTakesPlaceholders(db, sql[1..], args, 1);
    } else {
      ReadTakesPlaceholders(db, sql, args, level - 1);
      var left := ReadAt(db, sql, args, level - 1);
      if level > 1 && left.Some? && left.value.rest != [] && left.value.rest[0] == (if level == 2 then And else Or) {
        ReadTakesPlaceholders(db, left.value.rest[1..], left.value.args, level);
      }
    }
  }

  /** The reader of one level of precedence, tightest first. */
  function ReadAt(db: Database, sql: seq<Token>, args: seq<Value>, level: nat): Option<Read>
    requires level < 4
  {
    if level == 0 then ReadPrimary(db, sql, args)
    else if level == 1 then ReadNot(db, sql, args)
    else if level == 2 then ReadAnd(db, sql, args)
    else ReadOr(db, sql, args)
  }

  /** An expression has a value only when it has one argument for each placeholder. */
  lemma ValueNeedsEveryArgument(db: Database, sql: seq<Token>, args: seq<Value>)
    ensures Eval(db, sql, args).Some? ==> |args| == Placeholders(sql)
  {
    ReadTakesPlaceholders(db, sql, args, 3);
  }

  lemma WholeReads(db: Database, sql: seq<Token>, args: seq<Value>, v: Truth)
    requires ReadsAs(db, sql, args, v)
    ensures Eval(db, sql, args) == Some(v)
    ensures Placeholders(sql) == |args|
  {
    OneReads(db, Or, Operand(sql, args, v));
    assert Stops([]);
    assert ReadOr(db, sql + [], args + []) == Some(Read(v, [], []));
    assert sql + [] == sql && args + [] == args;
    ValueNeedsEveryArgument(db, sql, args);
  }

  /** Text that never puts a closing parenthesis right behind an opening one. */
  ghost predicate Solid(s: seq<Token>) {
    && s != [] && s[0] != Close && s[|s| - 1] != Open
    && forall i | 0 < i < |s| :: !(s[i - 1] == Open && s[i] == Close)
  }

  /** `rest` is what is left of `sql` behind a solid text. */
  ghost predicate SolidUpTo(sql: seq<Token>, rest: seq<Token>) {
    |rest| <= |sql| && sql[|sql| - |rest|..] == rest && Solid(sql[..|sql| - |rest|])
  }

  lemma SolidGroup(sql: seq<Token>, rest: seq<Token>)
    requires sql != [] && sql[0] == Open && SolidUpTo(sql[1..], rest) && rest != [] && rest[0] == Close
    ensures SolidUpTo(sql, rest[1..])
  {
    var m := |sql[1..]| - |rest|;
    var a, s := sql[1..][..m], sql[..m + 2];
    assert s == [Open] + a + [Close] && sql[m + 2..] == rest[1..];
    forall i | 0 < i < |s| ensures !(s[i - 1] == Open && s[i] == Close) {
      if 1 < i <= |a| { assert s[i - 1] == a[i - 2] && s[i] == a[i - 1]; }
    }
  }

  lemma SolidNot(sql: seq<Token>, rest: seq<Token>)
    requires sql != [] && sql[0] == Not && SolidUpTo(sql[1..], rest)
    ensures SolidUpTo(sql, rest)
  {
    var m := |sql[1..]| - |rest|;
    var a, s := sql[1..][..m], sql[..m + 1];
    assert s == [Not] + a && sql[m + 1..] == rest;
    forall i | 0 < i < |s| ensures !(s[i - 1] == Open && s[i] == Close) {
      if i > 1 { assert s[i - 1] == a[i - 2] && s[i] == a[i - 1]; }
    }
  }

  lemma SolidJoint(sql: seq<Token>, right: seq<Token>, rest: seq<Token>)
    requires SolidUpTo(sql, right) && right != [] && right[0] != Open && right[0] != Close
    requires SolidUpTo(right[1..], rest)
    ensures SolidUpTo(sql, rest)
  {
    var m, k := |sql| - |right|, |right[1..]| - |rest|;
    var a, b, s := sql[..m], right[1..][..k], sql[..m + 1 + k];
    assert right == sql[m..];
    assert s == a + [right[0]] + b && sql[m + 1 + k..] == rest;
    forall i | 0 < i < |s| ensures !(s[i - 1] == Open && s[i] == Close) {
      if i < |a| { assert s[i - 1] == a[i - 1] && s[i] == a[i]; }
      if i > |a| + 1 { assert s[i - 1] == b[i - |a| - 2] && s[i] == b[i - |a| - 1]; }
    }
  }

  /** What is read off the front of a text is solid. */
  lemma {:induction false} ReadTextIsSolid(db: Database, sql: seq<Token>, args: seq<Value>, level: nat)
    requires level < 4 && ReadAt(db, sql, args, level).Some?
    ensures SolidUpTo(sql, ReadAt(db, sql, args, level).value.rest)
    decreases |sql|, level
  {
    if level == 0 {
      if sql[0] == Open {
        ReadTextIsSolid(db, sql[1..], args, 3);
        SolidGroup(sql, ReadAt(db, sql[1..], args, 3).value.rest);
      } else {
        assert sql[..1] == [sql[0]];
      }
    } else if level == 1 && sql != [] && sql[0] == Not {
      ReadTextIsSolid(db, sql[1..], args, 1);
      SolidNot(sql, ReadAt(db, sql[1..], args, 1).value.rest);
    } else {
      ReadTextIsSolid(db, sql, args, level - 1);
      var left := ReadAt(db, sql, args, level - 1).value;
      if level > 1 && left.rest != [] && left.rest[0] == (if level == 2 then And else Or) {
        ReadTextIsSolid(db, left.rest[1..], left.args, level);
        SolidJoint(sql, left.rest, ReadAt(db, left.rest[1..], left.args, level).value.rest);
      }
    }
  }

  /** A text with `()` in it has no value, whatever the arguments. */
  lemma HollowHasNoValue(db: Database, sql: seq<Token>, args: seq<Value>)
    ensures Eval(db, sql, args).Some? ==> Solid(sql)
  {
    if Eval(db, sql, args).Some? {
      ReadTextIsSolid(db, sql, args, 3);
      assert sql[..|sql|] == sql;
    }
  }
}
