/** Parsing one field of a cron expression into a bit set. */
module CronParser {
  import opened Strings
  import opened Words

  /** The values a field accepts, and the names some of them have. */
  datatype Bounds = Bounds(min: nat, max: nat, names: map<string, nat>)

  datatype Error =
    | BadNumber | TooManyHyphens | TooManySlashes
    | BelowMinimum | AboveMaximum | Reversed | ZeroStep

  datatype Result<+T> = Ok(value: T) | Err(error: Error) {
    predicate IsFailure() { Err? }
    function PropagateFailure<U>(): Result<U>
      requires Err?
    {
      Err(error)
    }
    function Extract(): T
      requires Ok?
    {
      value
    }
  }

  const MAX_INT64: nat := 0x7FFF_FFFF_FFFF_FFFF
  const STAR_BIT: nat := 63

  /** Lower case as far as it can produce a letter of a name: two characters outside ASCII do. */
  function Lower(c: char): char {
    if 'A' <= c <= 'Z' then (c as int + 32) as char
    else if c == '\U{130}' then 'i'
    else if c == '\U{212A}' then 'k'
    else c
  }

  function ToLower(s: string): string { seq(|s|, i requires 0 <= i < |s| => Lower(s[i])) }

  predicate IsDigit(c: char) { '0' <= c <= '9' }

  function DigitValue(c: char): nat
    requires IsDigit(c)
  {
    c as int - '0' as int
  }

  /** The value of a string of digits. */
  function Value(s: string): nat
    requires forall c | c in s :: IsDigit(c)
  {
    if s == "" then 0 else 10 * Value(s[..|s| - 1]) + DigitValue(s[|s| - 1])
  }

  /** An integer literal that fits in 64 bits and is not negative. */
  function ParseInt(s: string): Result<nat> {
    var digits := if s != "" && (s[0] == '+' || s[0] == '-') then s[1..] else s;
    if digits == "" || exists c | c in digits :: !IsDigit(c) then Err(BadNumber)
    else
      var v := Value(digits);
      if v > MAX_INT64 || (s[0] == '-' && v > 0) then Err(BadNumber) else Ok(v)
  }

  function ParseIntOrName(s: string, names: map<string, nat>): Result<nat> {
    if ToLower(s) in names then Ok(names[ToLower(s)]) else ParseInt(s)
  }

  predicate OnStep(i: int, min: nat, step: nat)
    requires step > 0
  {
    (i - min) % step == 0
  }

  /** The progression from `min` to `max` in steps of `step`, as a bit set. */
  function Progression(min: nat, max: nat, step: nat): Word
    requires step > 0
  {
    seq(WIDTH, i requires 0 <= i < WIDTH => min <= i <= max && OnStep(i, min, step))
  }

  method GetBits(min: nat, max: nat, step: nat) returns (bits: Word)
    requires 0 < step <= MAX_INT64 && max < WIDTH
    ensures bits == Progression(min, max, step)
  {
    if step == 1 {
      return And(Not(Shl(AllOnes(), max + 1)), Shl(AllOnes(), min));
    }
    bits := Zero();
    var i := min;
    while i <= max
      invariant min <= i && OnStep(i, min, step)
      invariant forall j | 0 <= j < WIDTH :: bits[j] <==> min <= j < i && j <= max && OnStep(j, min, step)
      decreases max + step - i
    {
      NextMember(i, min, step);
      bits := Or(bits, One(i));
      i := i + step;
    }
  }

  lemma NextMember(i: nat, min: nat, step: nat)
    requires step > 0 && min <= i && OnStep(i, min, step)
    ensures OnStep(i + step, min, step) && forall j | i < j < i + step :: !OnStep(j, min, step)
  {
    ModPlus(i - min, 0, step);
    forall j | i < j < i + step ensures !OnStep(j, min, step) {
      ModPlus(i - min, j - i, step);
    }
  }

  /** Counting on from a multiple. */
  lemma ModPlus(m: nat, k: nat, step: nat)
    requires k < step && m % step == 0
    ensures (m + k) % step == k && (m + step) % step == 0
  {
    var q := m / step;
    assert m == q * step;
    Remainder(m + k, q, step);
    Remainder(m + step, q + 1, step);
  }

  lemma Remainder(x: nat, n: nat, step: nat)
    requires step > 0 && n * step <= x < n * step + step
    ensures x % step == x - n * step
  {
    var q := x / step;
    assert q * step <= x < q * step + step;
    assert q < n ==> (q + 1) * step <= n * step;
    assert n < q ==> (n + 1) * step <= q * step;
  }

  /** What one range of a field says. */
  datatype Range = Range(lo: nat, hi: nat, step: nat, star: bool)

  predicate Contains(g: Range, i: nat)
    requires g.step > 0
  {
    (g.lo <= i <= g.hi && OnStep(i, g.lo, g.step)) || (g.star && i == STAR_BIT)
  }

  /** Checks the limits of a range, in the order the source does. */
  function Checked(g: Range, r: Bounds): (c: Result<Range>)
    ensures c.Ok? ==> c.value == g && r.min <= g.lo <= g.hi <= r.max && g.step > 0
  {
    if g.lo < r.min then Err(BelowMinimum)
    else if g.hi > r.max then Err(AboveMaximum)
    else if g.lo > g.hi then Err(Reversed)
    else if g.step == 0 then Err(ZeroStep)
    else Ok(g)
  }

  /** The limits before the slash: low, high, and whether a star stood there. */
  function ReadLimits(lowAndHigh: seq<string>, r: Bounds): Result<(nat, nat, bool)>
    requires lowAndHigh != []
  {
    if lowAndHigh[0] == "*" || lowAndHigh[0] == "?" then Ok((r.min, r.max, true))
    else
      var lo :- ParseIntOrName(lowAndHigh[0], r.names);
      if |lowAndHigh| == 1 then Ok((lo, lo, false))
      else if |lowAndHigh| == 2 then
        var hi :- ParseIntOrName(lowAndHigh[1], r.names);
        Ok((lo, hi, false))
      else Err(TooManyHyphens)
  }

  function ReadRange(expr: string, r: Bounds): (c: Result<Range>)
    ensures c.Ok? ==> r.min <= c.value.lo <= c.value.hi <= r.max && c.value.step > 0
  {
    var rangeAndStep := Split(expr, '/');
    var lowAndHigh := Split(rangeAndStep[0], '-');
    var (lo, hi, star) :- ReadLimits(lowAndHigh, r);
    if |rangeAndStep| == 1 then Checked(Range(lo, hi, 1, star), r)
    else if |rangeAndStep| == 2 then
      var step :- ParseInt(rangeAndStep[1]);
      Checked(Range(lo, if |lowAndHigh| == 1 then r.max else hi, step, star && step <= 1), r)
    else Err(TooManySlashes)
  }

  function RangeBits(g: Range): Word
    requires g.step > 0
  {
    seq(WIDTH, i requires 0 <= i < WIDTH => Contains(g, i))
  }

  method GetRange(expr: string, r: Bounds) returns (bits: Result<Word>)
    requires r.max < WIDTH
    ensures var g := ReadRange(expr, r);
            bits == if g.Ok? then Ok(RangeBits(g.value)) else Err(g.error)
  {
    var g := ReadRange(expr, r);
    if g.Err? { return Err(g.error); }
    StepsFit(expr, r);
    var progression := GetBits(g.value.lo, g.value.hi, g.value.step);
    var extra := if g.value.star then One(STAR_BIT) else Zero();
    bits := Ok(Or(progression, extra));
    assert bits.value == RangeBits(g.value);
  }

  lemma StepsFit(expr: string, r: Bounds)
    ensures var g := ReadRange(expr, r); g.Ok? ==> g.value.step <= MAX_INT64
  {
  }

  /** The ranges of a field: the non-empty pieces between commas. */
  function Pieces(field: string): seq<string> { NonEmpty(Split(field, ',')) }

  /** All ranges read, or the first error. */
  function ReadRanges(pieces: seq<string>, r: Bounds): (c: Result<seq<Range>>)
    ensures c.Ok? ==> |c.value| == |pieces| && forall k | 0 <= k < |pieces| :: ReadRange(pieces[k], r) == Ok(c.value[k])
  {
    if pieces == [] then Ok([])
    else
      var g :- ReadRange(pieces[0], r);
      var rest :- ReadRanges(pieces[1..], r);
      Ok([g] + rest)
  }

  /** Some range contains the number. */
  ghost predicate InSome(ranges: seq<Range>, i: nat) {
    exists g | g in ranges :: g.step > 0 && Contains(g, i)
  }

  /** A word holds exactly the members of the ranges. */
  ghost predicate IsUnion(bits: Word, ranges: seq<Range>) {
    forall i | 0 <= i < WIDTH :: Has(bits, i) <==> InSome(ranges, i)
  }

  /** A field is the union of its ranges; the first range that cannot be read is the error. */
  method GetField(field: string, r: Bounds) returns (bits: Result<Word>)
    requires r.max < WIDTH
    ensures var ranges := ReadRanges(Pieces(field), r);
            if ranges.Ok? then bits.Ok? && IsUnion(bits.value, ranges.value) else bits == Err(ranges.error)
  {
    var pieces := Pieces(field);
    var word := Zero();
    ghost var done: seq<Range> := [];
    PrependNothing(pieces, r);
    for n := 0 to |pieces|
      invariant IsUnion(word, done)
      invariant ReadRanges(pieces, r) == Prepend(done, ReadRanges(pieces[n..], r))
    {
      ReadOne(pieces, n, r);
      var bit := GetRange(pieces[n], r);
      if bit.Err? { return Err(bit.error); }
      ghost var g := ReadRange(pieces[n], r).value;
      UnionGrows(word, done, g);
      word := Or(word, bit.value);
      PrependMore(done, g, ReadRanges(pieces[n + 1..], r));
      done := done + [g];
    }
    assert Prepend(done, ReadRanges([], r)) == Ok(done) by { assert done + [] == done; }
    bits := Ok(word);
  }

  ghost function Prepend(done: seq<Range>, rest: Result<seq<Range>>): Result<seq<Range>> {
    if rest.Ok? then Ok(done + rest.value) else rest
  }

  lemma PrependNothing(pieces: seq<string>, r: Bounds)
    ensures Prepend([], ReadRanges(pieces[0..], r)) == ReadRanges(pieces, r)
  {
    assert pieces[0..] == pieces;
    var rest := ReadRanges(pieces, r);
    if rest.Ok? { assert [] + rest.value == rest.value; }
  }

  lemma ReadOne(pieces: seq<string>, n: nat, r: Bounds)
    requires n < |pieces|
    ensures var g := ReadRange(pieces[n], r);
            ReadRanges(pieces[n..], r) ==
            if g.Ok? then Prepend([g.value], ReadRanges(pieces[n + 1..], r)) else Err(g.error)
  {
    assert pieces[n..][0] == pieces[n] && pieces[n..][1..] == pieces[n + 1..];
  }

  lemma PrependMore(done: seq<Range>, g: Range, rest: Result<seq<Range>>)
    ensures Prepend(done, Prepend([g], rest)) == Prepend(done + [g], rest)
  {
    if rest.Ok? {
      assert done + ([g] + rest.value) == done + [g] + rest.value;
    }
  }

  lemma UnionGrows(bits: Word, ranges: seq<Range>, g: Range)
    requires IsUnion(bits, ranges) && g.step > 0
    ensures IsUnion(Or(bits, RangeBits(g)), ranges + [g])
  {
    forall i | 0 <= i < WIDTH
      ensures Has(Or(bits, RangeBits(g)), i) <==> InSome(ranges + [g], i)
    {
      assert g in ranges + [g];
      assert InSome(ranges + [g], i) <==> InSome(ranges, i) || Contains(g, i);
    }
  }
}
