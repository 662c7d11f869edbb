/** How the marker scanners treat text put together from parts. */
module LocalIdText {
  import opened Lists
  import opened Options
  import opened LocalId

  function Behind(s: Option<string>, t: string): Option<string> {
    if s.None? then None else Some(s.value + t)
  }

  function MatchBehind(m: Option<Match>, t: string): Option<Match> {
    if m.None? then None else Some(Match(m.value.uid, m.value.rest + t))
  }

  lemma {:induction false} SkipTail(u: string, t: string)
    requires t != "" && !Blank(t[0])
    ensures Skip(u + t) == Skip(u) + t
  {
    if u == "" {
      assert u + t == t;
    } else {
      FrontOfBoth(u, t);
      SkipTail(u[1..], t);
    }
  }

  lemma EatTail(literal: string, u: string, t: string)
    requires t != "" && t[0] == '\n' && '\n' !in literal
    ensures Eat(literal, u + t) == Behind(Eat(literal, u), t)
  {
    if literal <= u + t { EndsInFront(literal, u, t); }
    assert literal <= u <==> literal <= u + t by {
      if literal <= u + t { assert (u + t)[..|literal|] == u[..|literal|]; }
    }
    if literal <= u { assert (u + t)[|literal|..] == u[|literal|..] + t; }
  }

  lemma EndsInFront(literal: string, u: string, t: string)
    requires literal <= u + t && t != "" && t[0] == '\n' && '\n' !in literal
    ensures |literal| <= |u|
  {
    PrefixItems(literal, u + t);
    assert (u + t)[|u|] == '\n';
  }

  lemma SkipEatTail(literal: string, u: Option<string>, t: string)
    requires t != "" && t[0] == '\n' && '\n' !in literal
    ensures SkipEat(literal, Behind(u, t)) == Behind(SkipEat(literal, u), t)
  {
    if u.Some? {
      SkipTail(u.value, t);
      EatTail(literal, Skip(u.value), t);
    }
  }

  lemma {:induction false} UntilQuoteTail(u: string, t: string)
    ensures UntilQuote(u + t)
         == if UntilQuote(u).Some? then MatchBehind(UntilQuote(u), t)
            else if UntilQuote(t).Some? then Some(Match(u + UntilQuote(t).value.uid, UntilQuote(t).value.rest))
            else None
  {
    if u == "" {
      assert u + t == t;
      if UntilQuote(t).Some? { assert u + UntilQuote(t).value.uid == UntilQuote(t).value.uid; }
    } else {
      FrontOfBoth(u, t);
      UntilQuoteTail(u[1..], t);
      if u[0] != '"' && UntilQuote(u).None? && UntilQuote(t).Some? {
        assert [u[0]] + (u[1..] + UntilQuote(t).value.uid) == u + UntilQuote(t).value.uid;
      }
    }
  }

  /** A text that cannot end a JSON marker begun in front of it. */
  predicate Stub(t: string) {
    && t != "" && t[0] == '\n'
    && (UntilQuote(t).Some? ==> SkipEat(",", Some(UntilQuote(t).value.rest)).None?)
  }

  lemma JsonHeadTail(u: string, t: string)
    requires u != "" && t != "" && t[0] == '\n'
    ensures JsonHead(u + t) == Behind(JsonHead(u), t)
  {
    assert Eat("\n", u + t) == Behind(Eat("\n", u), t) by {
      assert (u + t)[0] == u[0];
      assert forall x: string | x != "" :: "\n" <= x <==> x[0] == '\n';
      FrontOfBoth(u, t);
    }
    SkipEatTail("\"" + KEY + "\"", Eat("\n", u), t);
    SkipEatTail(":", SkipEat("\"" + KEY + "\"", Eat("\n", u)), t);
    SkipEatTail("\"", SkipEat(":", SkipEat("\"" + KEY + "\"", Eat("\n", u))), t);
  }

  lemma JsonMatchTail(u: string, t: string)
    requires u != "" && Stub(t)
    ensures JsonMatch(u + t) == MatchBehind(JsonMatch(u), t)
  {
    JsonHeadTail(u, t);
    if JsonHead(u).Some? {
      var h := JsonHead(u).value;
      UntilQuoteTail(h, t);
      if UntilQuote(h).Some? { SkipEatTail(",", Some(UntilQuote(h).value.rest), t); }
    }
  }

  /** In front of a stub, JSON markers are taken off as if nothing followed. */
  lemma {:induction false} StripJsonTail(u: string, t: string)
    requires Stub(t)
    ensures StripJson(u + t) == StripJson(u) + StripJson(t)
    ensures FirstJson(u + t) == if FirstJson(u).Some? then FirstJson(u) else FirstJson(t)
    decreases |u|
  {
    if u == "" {
      assert u + t == t && StripJson(u) + StripJson(t) == StripJson(t);
    } else {
      JsonMatchTail(u, t);
      if JsonMatch(u).Some? {
        StripJsonTail(JsonMatch(u).value.rest, t);
      } else {
        StripJsonTail(u[1..], t);
        FrontOfBoth(u, t);
        Assoc([u[0]], StripJson(u[1..]), StripJson(t));
      }
    }
  }

  lemma EatTakes(literal: string, s: Option<string>, c: char)
    requires s.Some? && SkipEat(literal, s).Some? && c in literal
    ensures c in s.value
  {
    SkipTakes(s.value);
    assert forall x | x in literal :: x in Skip(s.value);
  }

  lemma {:induction false} SkipTakes(s: string)
    ensures forall c | c in Skip(s) :: c in s
  {
    if s != "" && Blank(s[0]) { SkipTakes(s[1..]); }
  }

  /** A text without quotes holds no JSON marker. */
  lemma {:induction false} QuotelessHasNoJson(s: string)
    requires '"' !in s
    ensures StripJson(s) == s && FirstJson(s) == None
    decreases |s|
  {
    if s != "" {
      NoQuoteNoMatch(s);
      assert forall c | c in s[1..] :: c in s;
      QuotelessHasNoJson(s[1..]);
      assert [s[0]] + s[1..] == s;
    }
  }

  lemma NoQuoteNoMatch(s: string)
    requires '"' !in s
    ensures JsonMatch(s) == None
  {
    var a := Eat("\n", s);
    if a.Some? {
      assert forall c | c in a.value :: c in s;
      var key := "\"" + KEY + "\"";
      if SkipEat(key, a).Some? {
        assert key[0] == '"';
        EatTakes(key, a, '"');
      }
    }
  }

  // What the scanners cost a text, in characters other than newlines.

  function Ink(s: string): nat {
    if s == "" then 0 else (if s[0] == '\n' then 0 else 1) + Ink(s[1..])
  }

  lemma {:induction false} InkConcat(a: string, b: string)
    ensures Ink(a + b) == Ink(a) + Ink(b)
  {
    if a == "" {
      assert a + b == b;
    } else {
      FrontOfBoth(a, b);
      InkConcat(a[1..], b);
    }
  }

  lemma {:induction false} SkipInk(s: string)
    ensures Ink(Skip(s)) <= Ink(s)
  {
    if s != "" && Blank(s[0]) { SkipInk(s[1..]); }
  }

  lemma SkipEatInk(literal: string, s: Option<string>)
    ensures SkipEat(literal, s).Some? ==> s.Some? && Ink(SkipEat(literal, s).value) + Ink(literal) <= Ink(s.value)
  {
    var r := SkipEat(literal, s);
    if r.Some? {
      SkipInk(s.value);
      InkConcat(literal, r.value);
    }
  }

  lemma {:induction false} UntilQuoteInk(s: string)
    ensures UntilQuote(s).Some? ==> Ink(UntilQuote(s).value.rest) < Ink(s)
  {
    if s != "" && s[0] != '"' { UntilQuoteInk(s[1..]); }
  }

  lemma JsonMatchInk(s: string)
    requires JsonMatch(s).Some?
    ensures Ink(JsonMatch(s).value.rest) < Ink(s)
  {
    var a := Eat("\n", s);
    InkConcat("\n", a.value);
    SkipEatInk("\"" + KEY + "\"", a);
    SkipEatInk(":", SkipEat("\"" + KEY + "\"", a));
    SkipEatInk("\"", SkipEat(":", SkipEat("\"" + KEY + "\"", a)));
    var h := JsonHead(s).value;
    UntilQuoteInk(h);
    SkipEatInk(",", Some(UntilQuote(h).value.rest));
  }

  /** Taking JSON markers off costs ink, unless there is none. */
  lemma {:induction false} StripJsonInk(s: string)
    ensures Ink(StripJson(s)) <= Ink(s)
    ensures Ink(StripJson(s)) == Ink(s) ==> StripJson(s) == s
    ensures StripJson(s) == s ==> FirstJson(s) == None
    decreases |s|
  {
    if s != "" {
      if JsonMatch(s).Some? {
        JsonMatchInk(s);
        StripJsonInk(JsonMatch(s).value.rest);
      } else {
        StripJsonInk(s[1..]);
        InkConcat([s[0]], StripJson(s[1..]));
        InkConcat([s[0]], s[1..]);
        assert s == [s[0]] + s[1..];
        assert StripJson(s) == s ==> StripJson(s)[1..] == s[1..];
      }
    }
  }
}
