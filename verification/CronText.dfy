/** Cron fields as people write them: printing a list of ranges and parsing the text gives back
    exactly the numbers the ranges stand for. */
module CronText {
  import opened CronParser
  import opened Options
  import opened Strings
  import opened Words

  /** A limit: a number, or a name like `jan` in any case. */
  datatype Limit = Numeral(n: nat) | Name(text: string)

  /** `*` or `?`, `n`, or `n-m`. */
  datatype Limits = Star(mark: char) | Number(at: Limit) | Span(lo: Limit, hi: Limit)

  /** Limits with an optional step after a slash. */
  datatype RangeText = RangeText(limits: Limits, step: Option<nat>)

  function Digits(n: nat): (s: string)
    ensures s != "" && forall c | c in s :: IsDigit(c)
  {
    (if n < 10 then "" else Digits(n / 10)) + [(n % 10 + '0' as int) as char]
  }

  function PrintLimit(x: Limit): string { match x case Numeral(n) => Digits(n) case Name(text) => text }

  /** The number a limit stands for in a field. */
  function NumberOf(x: Limit, r: Bounds): nat {
    match x
    case Numeral(n) => n
    case Name(text) => if ToLower(text) in r.names then r.names[ToLower(text)] else 0
  }

  function PrintLimits(l: Limits): string {
    match l
    case Star(mark) => [mark]
    case Number(x) => PrintLimit(x)
    case Span(lo, hi) => PrintLimit(lo) + "-" + PrintLimit(hi)
  }

  function Print(t: RangeText): string {
    PrintLimits(t.limits) + if t.step.Some? then "/" + Digits(t.step.value) else ""
  }

  /** What the text means: a missing step is 1, `n/s` runs to the end of the field, and a star
      stays a star unless it is thinned out by a step. */
  function Denote(t: RangeText, r: Bounds): Range {
    var step := if t.step.Some? then t.step.value else 1;
    match t.limits
    case Star(_) => Range(r.min, r.max, step, step <= 1)
    case Number(x) => Range(NumberOf(x, r), if t.step.Some? then r.max else NumberOf(x, r), step, false)
    case Span(lo, hi) => Range(NumberOf(lo, r), NumberOf(hi, r), step, false)
  }

  /** A number fits in 64 bits; a name is one of the field's, and no separator or star. */
  predicate Readable(x: Limit, r: Bounds) {
    match x
    case Numeral(n) => n <= MAX_INT64
    case Name(text) =>
      && ToLower(text) in r.names && text != "" && text != "*" && text != "?"
      && Lacks(text, '-') && Lacks(text, '/') && Lacks(text, ',')
  }

  predicate AllReadable(l: Limits, r: Bounds) {
    match l
    case Star(mark) => mark == '*' || mark == '?'
    case Number(x) => Readable(x, r)
    case Span(lo, hi) => Readable(lo, r) && Readable(hi, r)
  }

  /** The limits can be read, and the step fits in 64 bits. */
  predicate WellFormed(t: RangeText, r: Bounds) {
    AllReadable(t.limits, r) && (t.step.Some? ==> t.step.value <= MAX_INT64)
  }

  /** No name could be mistaken for a number. */
  predicate NamesAreWords(r: Bounds) {
    forall k | k in r.names :: exists c | c in k :: !IsDigit(c)
  }

  lemma {:induction false} DigitsValue(n: nat)
    ensures Value(Digits(n)) == n
  {
    var s := Digits(n);
    assert s[|s| - 1] == (n % 10 + '0' as int) as char;
    if n < 10 {
      assert s[..|s| - 1] == "";
    } else {
      assert s[..|s| - 1] == Digits(n / 10);
      DigitsValue(n / 10);
    }
  }

  lemma NumberRead(n: nat, r: Bounds)
    requires n <= MAX_INT64 && NamesAreWords(r)
    ensures ParseInt(Digits(n)) == Ok(n) && ParseIntOrName(Digits(n), r.names) == Ok(n)
  {
    var s := Digits(n);
    assert s[0] in s;
    DigitsValue(n);
    DigitsAreLower(s);
  }

  lemma DigitsAreLower(s: string)
    requires forall c | c in s :: IsDigit(c)
    ensures ToLower(s) == s
  {
    forall i | 0 <= i < |s| ensures ToLower(s)[i] == s[i] { assert s[i] in s; }
  }

  lemma LimitRead(x: Limit, r: Bounds)
    requires Readable(x, r) && NamesAreWords(r)
    ensures ParseIntOrName(PrintLimit(x), r.names) == Ok(NumberOf(x, r))
    ensures PrintLimit(x) != "" && PrintLimit(x) != "*" && PrintLimit(x) != "?"
    ensures Lacks(PrintLimit(x), '-') && Lacks(PrintLimit(x), '/') && Lacks(PrintLimit(x), ',')
  {
    if x.Numeral? {
      NumberRead(x.n, r);
      assert Digits(x.n)[0] in Digits(x.n);
    }
  }

  lemma LimitsSplit(l: Limits, r: Bounds)
    requires AllReadable(l, r) && NamesAreWords(r)
    ensures Lacks(PrintLimits(l), '/') && Lacks(PrintLimits(l), ',') && PrintLimits(l) != ""
    ensures Split(PrintLimits(l), '-') ==
            match l case Star(mark) => [[mark]] case Number(x) => [PrintLimit(x)]
                    case Span(lo, hi) => [PrintLimit(lo), PrintLimit(hi)]
  {
    match l
    case Star(mark) => SplitNone([mark], '-');
    case Number(x) =>
      LimitRead(x, r);
      SplitNone(PrintLimit(x), '-');
    case Span(lo, hi) =>
      LimitRead(lo, r);
      LimitRead(hi, r);
      SplitNone(PrintLimit(hi), '-');
      SplitFirst(PrintLimit(lo), PrintLimit(hi), '-');
  }

  lemma LimitsRead(l: Limits, r: Bounds)
    requires AllReadable(l, r) && NamesAreWords(r)
    ensures ReadLimits(Split(PrintLimits(l), '-'), r) ==
            match l
            case Star(_) => Ok((r.min, r.max, true))
            case Number(x) => Ok((NumberOf(x, r), NumberOf(x, r), false))
            case Span(lo, hi) => Ok((NumberOf(lo, r), NumberOf(hi, r), false))
  {
    LimitsSplit(l, r);
    match l
    case Star(_) =>
    case Number(x) => LimitRead(x, r);
    case Span(lo, hi) =>
      LimitRead(lo, r);
      LimitRead(hi, r);
  }

  lemma SlashSplit(a: string, b: string)
    requires Lacks(a, '/') && Lacks(b, '/')
    ensures Split(a + ("/" + b), '/') == [a, b] && Split(a, '/') == [a]
  {
    SplitNone(a, '/');
    SplitNone(b, '/');
    SplitFirst(a, b, '/');
    assert a + ("/" + b) == a + ['/'] + b;
  }

  /** The parts of a printed range around its slash. */
  lemma RangeSplit(t: RangeText, r: Bounds)
    requires WellFormed(t, r) && NamesAreWords(r)
    ensures Split(Print(t), '/') == [PrintLimits(t.limits)] + if t.step.Some? then [Digits(t.step.value)] else []
    ensures Print(t) != "" && Lacks(Print(t), ',')
  {
    LimitsSplit(t.limits, r);
    if t.step.Some? {
      SlashSplit(PrintLimits(t.limits), Digits(t.step.value));
    } else {
      SlashSplit(PrintLimits(t.limits), "");
      assert PrintLimits(t.limits) + "" == PrintLimits(t.limits);
    }
  }

  /** Reading a printed range gives its meaning, or the error its limits deserve. */
  lemma RangeRead(t: RangeText, r: Bounds)
    requires WellFormed(t, r) && NamesAreWords(r)
    ensures ReadRange(Print(t), r) == Checked(Denote(t, r), r)
    ensures Print(t) != "" && Lacks(Print(t), ',')
  {
    RangeSplit(t, r);
    LimitsRead(t.limits, r);
    LimitsCount(t.limits, r);
    if t.step.Some? { NumberRead(t.step.value, r); }
  }

  lemma LimitsCount(l: Limits, r: Bounds)
    requires AllReadable(l, r) && NamesAreWords(r)
    ensures |Split(PrintLimits(l), '-')| == if l.Span? then 2 else 1
  {
    LimitsSplit(l, r);
  }

  function PrintAll(ts: seq<RangeText>): (r: seq<string>)
    ensures |r| == |ts|
  {
    if ts == [] then [] else [Print(ts[0])] + PrintAll(ts[1..])
  }

  function PrintField(ts: seq<RangeText>): string { Join(PrintAll(ts), ',') }

  function Meanings(ts: seq<RangeText>, r: Bounds): seq<Range> {
    if ts == [] then [] else [Denote(ts[0], r)] + Meanings(ts[1..], r)
  }

  predicate Acceptable(t: RangeText, r: Bounds) { WellFormed(t, r) && Checked(Denote(t, r), r).Ok? }

  predicate AllAcceptable(ts: seq<RangeText>, r: Bounds) {
    forall i | 0 <= i < |ts| :: Acceptable(ts[i], r)
  }

  /** A printed field reads back as the list of its ranges' meanings. */
  lemma FieldRead(ts: seq<RangeText>, r: Bounds)
    requires ts != [] && NamesAreWords(r) && AllAcceptable(ts, r)
    ensures ReadRanges(Pieces(PrintField(ts)), r) == Ok(Meanings(ts, r))
  {
    RangesRead(ts, r);
    SplitJoin(PrintAll(ts), ',');
    NonEmptyKeepsAll(PrintAll(ts));
  }

  lemma {:induction false} RangesRead(ts: seq<RangeText>, r: Bounds)
    requires NamesAreWords(r) && AllAcceptable(ts, r)
    ensures ReadRanges(PrintAll(ts), r) == Ok(Meanings(ts, r))
    ensures forall p | p in PrintAll(ts) :: p != "" && Lacks(p, ',')
  {
    if ts != [] {
      RangeRead(ts[0], r);
      RangesRead(ts[1..], r);
      assert PrintAll(ts)[0] == Print(ts[0]) && PrintAll(ts)[1..] == PrintAll(ts[1..]);
    }
  }

  /** Some written range stands for the number. */
  predicate StandsFor(ts: seq<RangeText>, r: Bounds, i: nat) {
    exists t | t in ts :: var g := Denote(t, r); g.step > 0 && g.lo <= i <= g.hi && (i - g.lo) % g.step == 0
  }

  /** Some written range is a star, without a step above 1. */
  predicate HasStar(ts: seq<RangeText>) {
    exists t | t in ts :: t.limits.Star? && (t.step == None || t.step == Some(1))
  }

  lemma {:induction false} MeaningsContain(ts: seq<RangeText>, r: Bounds, i: nat)
    requires r.max < STAR_BIT && AllAcceptable(ts, r)
    ensures InSome(Meanings(ts, r), i) <==> if i == STAR_BIT then HasStar(ts) else StandsFor(ts, r, i)
  {
    if ts != [] {
      var t, rest := ts[0], ts[1..];
      MeaningsContain(rest, r, i);
      assert Acceptable(t, r);
      assert ts == [t] + rest && Meanings(ts, r) == [Denote(t, r)] + Meanings(rest, r);
      assert InSome(Meanings(ts, r), i) <==> Contains(Denote(t, r), i) || InSome(Meanings(rest, r), i);
    }
  }

  /** What GetField promises, read on the text: a number is in the parsed field exactly when some
      written range stands for it, and the star bit is set exactly when some range is a star
      without a step above 1. */
  lemma FieldDenotesText(ts: seq<RangeText>, r: Bounds, bits: Word)
    requires ts != [] && r.max < STAR_BIT && NamesAreWords(r) && AllAcceptable(ts, r)
    requires var ranges := ReadRanges(Pieces(PrintField(ts)), r); ranges.Ok? ==> IsUnion(bits, ranges.value)
    ensures ReadRanges(Pieces(PrintField(ts)), r).Ok?
    ensures forall i | 0 <= i < STAR_BIT :: Has(bits, i) <==> StandsFor(ts, r, i)
    ensures Has(bits, STAR_BIT) <==> HasStar(ts)
  {
    FieldRead(ts, r);
    forall i: nat | i < WIDTH { MeaningsContain(ts, r, i); }
  }
}
