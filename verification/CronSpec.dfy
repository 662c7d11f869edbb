/** The next activation of a cron schedule. */
module CronSpec {
  import opened Options
  import opened Calendar
  import opened Words

  /** Six bit sets, and the zone's offset from UTC in seconds. Bit 63 of a day field says that
      the field was written as a star. */
  datatype SpecSchedule = SpecSchedule(second: Word, minute: Word, hour: Word, dom: Word, month: Word, dow: Word,
                                       offset: int)

  const STAR: nat := 63

  predicate MonthOk(s: SpecSchedule, day: int) { Has(s.month, Month(day)) }

  /** Both day fields must match if either is a star; otherwise one of them is enough. */
  predicate DayOk(s: SpecSchedule, day: int) {
    var domMatch, dowMatch := Has(s.dom, DayOfMonth(day)), Has(s.dow, Weekday(day));
    if Has(s.dom, STAR) || Has(s.dow, STAR) then domMatch && dowMatch else domMatch || dowMatch
  }

  predicate HourOk(s: SpecSchedule, c: Clock) { Has(s.hour, c.hour) }
  predicate MinuteOk(s: SpecSchedule, c: Clock) { Has(s.minute, c.minute) }
  predicate SecondOk(s: SpecSchedule, c: Clock) { Has(s.second, c.second) }

  /** The clock reading satisfies all six fields. */
  predicate Matches(s: SpecSchedule, c: Clock) {
    MonthOk(s, c.day) && DayOk(s, c.day) && HourOk(s, c) && MinuteOk(s, c) && SecondOk(s, c)
  }

  ghost predicate NoneIn(s: SpecSchedule, a: Clock, b: Clock) {
    forall x: Clock | !Before(x, a) && Before(x, b) :: !Matches(s, x)
  }

  /** The seconds the zone's offset leaves over; the zone is one of whole minutes when it is 0. */
  function Over(s: SpecSchedule): (n: nat)
    ensures n < 60
  {
    s.offset % 60
  }

  /** In a zone of whole minutes, no reading from the start up to `c` matches. */
  ghost predicate Clear(s: SpecSchedule, start: Clock, c: Clock) {
    Over(s) == 0 ==> NoneIn(s, start, c)
  }

  /** Once a field was incremented: below each field that may not match, everything is at its
      minimum (seconds only in a zone of whole minutes). */
  predicate Carry(s: SpecSchedule, c: Clock) {
    && (Over(s) == 0 ==> c.second == 0)
    && (HourOk(s, c) || c.minute == 0)
    && (DayOk(s, c.day) || c.hour == c.minute == 0)
    && (MonthOk(s, c.day) || (DayOfMonth(c.day) == 1 && c.hour == c.minute == 0))
  }

  /** From `c` on nothing matches before `next`. */
  lemma Extend(s: SpecSchedule, start: Clock, c: Clock, next: Clock)
    requires Clear(s, start, c) && (Over(s) == 0 ==> NoneIn(s, c, next))
    ensures Clear(s, start, next)
  {
  }

  /** A day between two days of one month is in it. */
  lemma BetweenMonth(s: SpecSchedule, day: int, other: int, k: int)
    requires MonthOfDay(day) == k && day <= other < MonthStart(k + 1)
    ensures MonthOk(s, other) == MonthOk(s, day)
  {
    MonthOfDayUnique(other, k);
    assert Month(other) == Month(day);
  }

  lemma MonthGap(s: SpecSchedule, c: Clock)
    requires !MonthOk(s, c.day)
    ensures NoneIn(s, c, Reading(MonthStart(MonthOfDay(c.day) + 1), 0, 0, 0))
  {
    var k := MonthOfDay(c.day);
    var end := MonthStart(k + 1);
    forall x: Clock | !Before(x, c) && Before(x, Reading(end, 0, 0, 0)) ensures !MonthOk(s, x.day) {
      assert c.day <= x.day < end;
      BetweenMonth(s, c.day, x.day, k);
    }
  }

  lemma DayGap(s: SpecSchedule, c: Clock)
    requires !DayOk(s, c.day)
    ensures NoneIn(s, c, Reading(c.day + 1, 0, 0, 0))
  {
    forall x: Clock | !Before(x, c) && Before(x, Reading(c.day + 1, 0, 0, 0)) ensures !DayOk(s, x.day) {
      assert x.day == c.day;
    }
  }

  lemma HourGap(s: SpecSchedule, c: Clock)
    requires !HourOk(s, c)
    ensures NoneIn(s, c, AddHour(Reading(c.day, c.hour, 0, 0)))
  {
    forall x: Clock | !Before(x, c) && Before(x, AddHour(Reading(c.day, c.hour, 0, 0))) ensures !HourOk(s, x) {
      assert x.hour == c.hour;
    }
  }

  lemma MinuteGap(s: SpecSchedule, c: Clock)
    requires !MinuteOk(s, c)
    ensures NoneIn(s, c, AddMinute(c.(second := 0)))
  {
    forall x: Clock | !Before(x, c) && Before(x, AddMinute(c.(second := 0))) ensures !MinuteOk(s, x) {
      assert x.minute == c.minute;
    }
  }

  lemma SecondGap(s: SpecSchedule, c: Clock)
    requires !SecondOk(s, c)
    ensures NoneIn(s, c, AddSecond(c))
  {
    forall x: Clock | !Before(x, c) && Before(x, AddSecond(c)) ensures x == c {}
  }

  lemma SameMonth(day: int, k: int)
    requires MonthStart(k) <= day && day + 1 < MonthStart(k + 1)
    ensures MonthOfDay(day + 1) == k && MonthOfDay(day) == k
  {
    MonthOfDayUnique(day, k);
    MonthOfDayUnique(day + 1, k);
  }

  lemma NewMonth(day: int, k: int)
    requires day + 1 == MonthStart(k + 1)
    ensures DayOfMonth(day + 1) == 1
  {
    MonthLength(k + 1);
    MonthOfDayUnique(day + 1, k + 1);
  }

  /** The next day is in the same month, unless it is the first of one. */
  lemma NextDay(day: int)
    ensures DayOfMonth(day + 1) == 1 || MonthOfDay(day + 1) == MonthOfDay(day)
  {
    var k, end := NextMonth(day);
    if day + 1 == end { NewMonth(day, k); } else { SameMonth(day, k); }
  }

  lemma NextMonth(day: int) returns (k: int, end: int)
    ensures k == MonthOfDay(day) && end == MonthStart(k + 1) && MonthStart(k) <= day < end
  {
    k, end := MonthOfDay(day), MonthStart(MonthOfDay(day) + 1);
  }

  /** A day begins: the month still matches, or it begins too. */
  lemma DayBegins(s: SpecSchedule, day: int, next: Clock)
    requires MonthOk(s, day) && next.day == day + 1 && next.hour == next.minute == 0
    requires Over(s) == 0 ==> next.second == 0
    ensures Carry(s, next)
  {
    NextDay(day);
  }

  /** Where the clock goes when the month does not match: the first of the next month. */
  lemma MonthTurn(s: SpecSchedule, start: Clock, c: Clock, added: bool, base: Clock)
    requires !MonthOk(s, c.day) && Clear(s, start, c) && (added ==> Carry(s, c))
    requires base == if added then c else Reading(MonthStart(MonthOfDay(c.day)), 0, 0, 0)
    ensures var next := AddMonth(base);
            && Before(c, next) && MonthOfDay(next.day) == MonthOfDay(c.day) + 1
            && Clear(s, start, next) && Carry(s, next)
  {
    var k := MonthOfDay(c.day);
    MonthLength(k);
    MonthLength(k + 1);
    MonthOfDayUnique(MonthStart(k), k);
    MonthOfDayUnique(MonthStart(k + 1), k + 1);
    MonthGap(s, c);
    Extend(s, start, c, Reading(MonthStart(k + 1), 0, 0, 0));
    assert AddMonth(base).day == MonthStart(k + 1) && DayOfMonth(AddMonth(base).day) == 1;
  }

  lemma DayTurn(s: SpecSchedule, start: Clock, c: Clock, added: bool, base: Clock)
    requires MonthOk(s, c.day) && !DayOk(s, c.day) && Clear(s, start, c) && (added ==> Carry(s, c))
    requires base == if added then c else Reading(c.day, 0, 0, 0)
    ensures var next := AddDay(base);
            && Before(c, next) && (DayOfMonth(next.day) == 1 || MonthOfDay(next.day) == MonthOfDay(c.day))
            && Clear(s, start, next) && Carry(s, next)
  {
    var next := AddDay(base);
    NextDay(c.day);
    DayBegins(s, c.day, next);
    DayClear(s, start, c, next);
  }

  lemma DayClear(s: SpecSchedule, start: Clock, c: Clock, next: Clock)
    requires !DayOk(s, c.day) && Clear(s, start, c)
    requires Over(s) == 0 ==> next == Reading(c.day + 1, 0, 0, 0)
    ensures Clear(s, start, next)
  {
    DayGap(s, c);
    Extend(s, start, c, next);
  }

  lemma HourTurn(s: SpecSchedule, start: Clock, c: Clock, added: bool, base: Clock)
    requires MonthOk(s, c.day) && DayOk(s, c.day) && !HourOk(s, c) && Clear(s, start, c) && (added ==> Carry(s, c))
    requires base == if added then c else Reading(c.day, c.hour, 0, 0)
    ensures var next := AddHour(base);
            && Before(c, next) && (next.hour == 0 || next.day == c.day)
            && Clear(s, start, next) && Carry(s, next)
  {
    var next := AddHour(base);
    if next.day != c.day { DayBegins(s, c.day, next); }
    HourGap(s, c);
    assert Over(s) == 0 ==> next == AddHour(Reading(c.day, c.hour, 0, 0));
    Extend(s, start, c, next);
  }

  /** An hour begins: month and day still match, or a day begins. */
  lemma HourBegins(s: SpecSchedule, c: Clock, next: Clock)
    requires MonthOk(s, c.day) && DayOk(s, c.day) && next.minute == 0 && (Over(s) == 0 ==> next.second == 0)
    requires next.day == c.day || (next.day == c.day + 1 && next.hour == 0)
    ensures Carry(s, next)
  {
    if next.day != c.day { DayBegins(s, c.day, next); }
  }

  /** A minute on from a truncated reading. */
  lemma TruncatedMinute(c: Clock, over: nat)
    requires over < 60
    ensures var next := AddMinute(TruncateMinute(c, over));
            && Before(c, next) && (next.minute == 0 || (next.day == c.day && next.hour == c.hour))
            && (over == 0 ==> next == AddMinute(c.(second := 0)))
            && (next.minute == 0 ==> next.day == c.day || (next.day == c.day + 1 && next.hour == 0))
            && (over == 0 ==> next.second == 0)
  {
    BeforeIsEarlier(c, AddMinute(TruncateMinute(c, over)));
  }

  lemma WholeMinute(c: Clock)
    ensures var next := AddMinute(c);
            && Before(c, next) && (next.minute == 0 || (next.day == c.day && next.hour == c.hour))
            && (next.minute == 0 ==> next.day == c.day || (next.day == c.day + 1 && next.hour == 0))
            && next.second == c.second
  {
  }

  lemma MinuteTurn(s: SpecSchedule, start: Clock, c: Clock, added: bool, base: Clock)
    requires MonthOk(s, c.day) && DayOk(s, c.day) && HourOk(s, c) && !MinuteOk(s, c)
    requires Clear(s, start, c) && (added ==> Carry(s, c))
    requires base == if added then c else TruncateMinute(c, Over(s))
    ensures var next := AddMinute(base);
            && Before(c, next) && (next.minute == 0 || (next.day == c.day && next.hour == c.hour))
            && Clear(s, start, next) && Carry(s, next)
  {
    var next := AddMinute(base);
    TruncatedMinute(c, Over(s));
    WholeMinute(c);
    if next.minute == 0 { HourBegins(s, c, next); }
    assert added && Over(s) == 0 ==> c == c.(second := 0);
    MinuteClear(s, start, c, next);
  }

  lemma MinuteClear(s: SpecSchedule, start: Clock, c: Clock, next: Clock)
    requires !MinuteOk(s, c) && Clear(s, start, c)
    requires Over(s) == 0 ==> next == AddMinute(c.(second := 0))
    ensures Clear(s, start, next)
  {
    MinuteGap(s, c);
    Extend(s, start, c, next);
  }

  lemma SecondTurn(s: SpecSchedule, start: Clock, c: Clock)
    requires MonthOk(s, c.day) && DayOk(s, c.day) && HourOk(s, c) && MinuteOk(s, c) && !SecondOk(s, c)
    requires Clear(s, start, c)
    ensures var next := AddSecond(c);
            && Before(c, next) && Clear(s, start, next)
            && if next.second == 0 then Carry(s, next) else next == c.(second := next.second)
  {
    var next := AddSecond(c);
    if next.second == 0 && next.minute == 0 { HourBegins(s, c, next); }
    SecondGap(s, c);
    Extend(s, start, c, next);
  }


  /** The clock reading of a UTC second in the schedule's zone. */
  function Local(s: SpecSchedule, second: int): Clock { ClockAt(second + s.offset) }

  /** The first whole second after an instant given in nanoseconds. */
  function Upcoming(now: int): int { now / 1_000_000_000 + 1 }

  /** `y` is the least whole second after `now` that matches. */
  ghost predicate IsNext(s: SpecSchedule, now: int, y: int) {
    && now < y * 1_000_000_000 && Matches(s, Local(s, y))
    && forall x | now < x * 1_000_000_000 && x < y :: !Matches(s, Local(s, x))
  }

  /** Nothing matches from `now` to the end of the given year. */
  ghost predicate NoneUntil(s: SpecSchedule, now: int, year: int) {
    forall x | now < x * 1_000_000_000 && Year(Local(s, x).day) <= year :: !Matches(s, Local(s, x))
  }

  lemma FoundIsNext(s: SpecSchedule, now: int, c: Clock)
    requires var start := Local(s, Upcoming(now)); !Before(c, start) && NoneIn(s, start, c)
    requires Matches(s, c)
    ensures IsNext(s, now, Seconds(c) - s.offset)
  {
    var start := Local(s, Upcoming(now));
    BeforeIsEarlier(c, start);
    BeforeIsEarlier(c, Local(s, Seconds(c) - s.offset));
    forall x | now < x * 1_000_000_000 && x < Seconds(c) - s.offset ensures !Matches(s, Local(s, x)) {
      BeforeIsEarlier(Local(s, x), start);
      BeforeIsEarlier(Local(s, x), c);
    }
  }

  lemma NothingUntil(s: SpecSchedule, now: int, c: Clock, year: int)
    requires NoneIn(s, Local(s, Upcoming(now)), c) && Year(c.day) > year
    ensures NoneUntil(s, now, year)
  {
    var start := Local(s, Upcoming(now));
    forall x | now < x * 1_000_000_000 && Year(Local(s, x).day) <= year ensures !Matches(s, Local(s, x)) {
      BeforeIsEarlier(Local(s, x), start);
      if c.day <= Local(s, x).day { MonthsOfDays(c.day, Local(s, x).day); }
    }
  }

  lemma MonthsOfDays(a: int, b: int)
    requires a <= b
    ensures MonthOfDay(a) <= MonthOfDay(b)
  {
    if MonthOfDay(b) < MonthOfDay(a) { MonthsAscend(MonthOfDay(b) + 1, MonthOfDay(a)); }
  }

  /** Midnight after the last day of a year. */
  function YearEnd(year: int): Clock { Reading(MonthStart(12 * year + 12), 0, 0, 0) }

  lemma YearEnds(day: int, year: int)
    ensures Year(day) <= year <==> day < YearEnd(year).day
  {
    var k := MonthOfDay(day);
    if Year(day) <= year { MonthsAscend(k + 1, 12 * year + 12); } else { MonthsAscend(12 * year + 12, k); }
  }

  /** Once an hour, at minute 1 second 0; asked one second before minute 1. */
  predicate OneSecondEarly(s: SpecSchedule, start: Clock) {
    && (forall i: nat | i < 64 :: (Has(s.second, i) <==> i == 0) && (Has(s.minute, i) <==> i == 1))
    && (forall i: nat | i < 64 :: Has(s.hour, i) && Has(s.dom, i) && Has(s.month, i) && Has(s.dow, i))
    && start.minute == 0 && start.second == 59
  }

  /** The reading that schedule is due at. */
  function DueAt(start: Clock): Clock { start.(minute := 1, second := 0) }

  /** What holds whenever a field is looked at: the clock is past the start, nothing on the way
      matched, the carries are in order, and the odd case below is lost once it is passed. */
  ghost predicate Searching(s: SpecSchedule, start: Clock, t: Clock, added: bool) {
    && !Before(t, start) && Clear(s, start, t) && (added ==> Carry(s, t))
    && (Over(s) != 0 && OneSecondEarly(s, start) ==> (t == start && !added) || Before(DueAt(start), t))
  }

  method FindMonth(s: SpecSchedule, ghost start: Clock, ghost limit: int, t0: Clock, added0: bool)
    returns (t: Clock, added: bool, wrapped: bool)
    requires Searching(s, start, t0, added0) && Year(t0.day) <= limit
    ensures Searching(s, start, t, added) && (wrapped ==> Before(t0, t)) && !Before(t, t0)
    ensures !wrapped ==> MonthOk(s, t.day) && Year(t.day) <= limit
  {
    t, added := t0, added0;
    while !MonthOk(s, t.day)
      invariant Searching(s, start, t, added) && !Before(t, t0) && Year(t.day) <= limit
      decreases YearEnd(limit).day - t.day
    {
      ghost var was, wasAdded := t, added;
      YearEnds(t.day, limit);
      if !added {
        added := true;
        t := Reading(MonthStart(MonthOfDay(t.day)), 0, 0, 0);
      }
      MonthTurn(s, start, was, wasAdded, t);
      t := AddMonth(t);
      if Month(t.day) == 1 {
        return t, added, true;
      }
    }
    wrapped := false;
  }

  method FindDay(s: SpecSchedule, ghost start: Clock, ghost limit: int, t0: Clock, added0: bool)
    returns (t: Clock, added: bool, wrapped: bool)
    requires Searching(s, start, t0, added0) && Year(t0.day) <= limit && MonthOk(s, t0.day)
    ensures Searching(s, start, t, added) && (wrapped ==> Before(t0, t)) && !Before(t, t0)
    ensures !wrapped ==> MonthOk(s, t.day) && DayOk(s, t.day) && Year(t.day) <= limit
  {
    t, added := t0, added0;
    while !DayOk(s, t.day)
      invariant Searching(s, start, t, added) && !Before(t, t0) && Year(t.day) <= limit && MonthOk(s, t.day)
      decreases YearEnd(limit).day - t.day
    {
      ghost var was, wasAdded := t, added;
      YearEnds(t.day, limit);
      if !added {
        added := true;
        t := Reading(t.day, 0, 0, 0);
      }
      DayTurn(s, start, was, wasAdded, t);
      t := AddDay(t);
      if DayOfMonth(t.day) == 1 {
        return t, added, true;
      }
    }
    wrapped := false;
  }

  method FindHour(s: SpecSchedule, ghost start: Clock, t0: Clock, added0: bool)
    returns (t: Clock, added: bool, wrapped: bool)
    requires Searching(s, start, t0, added0) && MonthOk(s, t0.day) && DayOk(s, t0.day)
    ensures Searching(s, start, t, added) && (wrapped ==> Before(t0, t)) && !Before(t, t0)
    ensures !wrapped ==> t.day == t0.day && HourOk(s, t)
  {
    t, added := t0, added0;
    while !HourOk(s, t)
      invariant Searching(s, start, t, added) && !Before(t, t0) && t.day == t0.day
      decreases 24 - t.hour
    {
      ghost var was, wasAdded := t, added;
      if !added {
        added := true;
        t := Reading(t.day, t.hour, 0, 0);
      }
      HourTurn(s, start, was, wasAdded, t);
      t := AddHour(t);
      if t.hour == 0 {
        return t, added, true;
      }
    }
    wrapped := false;
  }

  lemma MinuteSearched(s: SpecSchedule, start: Clock, c: Clock, added: bool, base: Clock)
    requires MonthOk(s, c.day) && DayOk(s, c.day) && HourOk(s, c) && !MinuteOk(s, c) && Searching(s, start, c, added)
    requires base == if added then c else TruncateMinute(c, Over(s))
    ensures var next := AddMinute(base);
            && Before(c, next) && (next.minute == 0 || (next.day == c.day && next.hour == c.hour))
            && Searching(s, start, next, true)
  {
    MinuteTurn(s, start, c, added, base);
  }

  method FindMinute(s: SpecSchedule, ghost start: Clock, t0: Clock, added0: bool)
    returns (t: Clock, added: bool, wrapped: bool)
    requires Searching(s, start, t0, added0) && MonthOk(s, t0.day) && DayOk(s, t0.day) && HourOk(s, t0)
    ensures Searching(s, start, t, added) && (wrapped ==> Before(t0, t)) && !Before(t, t0)
    ensures !wrapped ==> t.day == t0.day && t.hour == t0.hour && MinuteOk(s, t)
  {
    t, added := t0, added0;
    while !MinuteOk(s, t)
      invariant Searching(s, start, t, added) && !Before(t, t0) && t.day == t0.day && t.hour == t0.hour
      decreases !added, 60 - t.minute
    {
      ghost var was, wasAdded := t, added;
      if !added {
        added := true;
        t := TruncateMinute(t, Over(s));
      }
      MinuteSearched(s, start, was, wasAdded, t);
      t := AddMinute(t);
      if t.minute == 0 {
        return t, added, true;
      }
    }
    wrapped := false;
  }

  /** The seconds carry no rest below them, so only a wrap leaves the carries to look after. */
  method FindSecond(s: SpecSchedule, ghost start: Clock, t0: Clock, added0: bool)
    returns (t: Clock, added: bool, wrapped: bool)
    requires Searching(s, start, t0, added0)
    requires MonthOk(s, t0.day) && DayOk(s, t0.day) && HourOk(s, t0) && MinuteOk(s, t0)
    ensures !Before(t, t0) && if wrapped then Before(t0, t) && Searching(s, start, t, added)
                              else Matches(s, t) && t.day == t0.day && Clear(s, start, t)
    ensures Over(s) != 0 && OneSecondEarly(s, start) ==> Before(DueAt(start), t)
  {
    t, added := t0, added0;
    while !SecondOk(s, t)
      invariant t == t0.(second := t.second) && !Before(t, t0) && Clear(s, start, t)
      decreases 60 - t.second
    {
      added := true;
      SecondTurn(s, start, t);
      t := AddSecond(t);
      if t.second == 0 {
        return t, added, true;
      }
    }
    wrapped := false;
  }

  /** One pass over the fields, from the label the source jumps back to. */
  method Pass(s: SpecSchedule, ghost start: Clock, ghost limit: int, t0: Clock, added0: bool)
    returns (t: Clock, added: bool, wrapped: bool)
    requires Searching(s, start, t0, added0) && Year(t0.day) <= limit
    ensures !Before(t, t0)
    ensures if wrapped then Before(t0, t) && Searching(s, start, t, added)
            else Matches(s, t) && Clear(s, start, t) && Year(t.day) <= limit
    ensures !wrapped && Over(s) != 0 && OneSecondEarly(s, start) ==> Before(DueAt(start), t)
  {
    t, added, wrapped := FindMonth(s, start, limit, t0, added0);
    if wrapped { return; }
    t, added, wrapped := FindDay(s, start, limit, t, added);
    if wrapped { return; }
    t, added, wrapped := FindHour(s, start, t, added);
    if wrapped { return; }
    t, added, wrapped := FindMinute(s, start, t, added);
    if wrapped { return; }
    t, added, wrapped := FindSecond(s, start, t, added);
  }

  /** The last year in which the search looks. */
  function Limit(s: SpecSchedule, now: int): int { Year(Local(s, Upcoming(now)).day) + 5 }

  /** The answer is the least matching second, or none when nothing matches up to the limit. */
  ghost predicate Exact(s: SpecSchedule, now: int, r: Option<int>) {
    if r.Some? then IsNext(s, now, r.value) && Year(Local(s, r.value).day) <= Limit(s, now)
    else NoneUntil(s, now, Limit(s, now))
  }

  /** The answer is not the second that an hourly schedule asked one second early is due at. */
  ghost predicate Skips(s: SpecSchedule, now: int, r: Option<int>) {
    var start := Local(s, Upcoming(now));
    OneSecondEarly(s, start) ==> r != Some(Seconds(DueAt(start)) - s.offset)
  }

  /** Passes over the fields until one finds a match or the limit is passed. */
  method Search(s: SpecSchedule, start: Clock, limit: int) returns (t: Clock, found: bool)
    ensures !Before(t, start) && Clear(s, start, t)
    ensures if found then Matches(s, t) && Year(t.day) <= limit else Year(t.day) > limit
    ensures found && Over(s) != 0 && OneSecondEarly(s, start) ==> Before(DueAt(start), t)
  {
    var added := false;
    t := start;
    ghost var end := EndOf(limit);
    while Year(t.day) <= limit
      invariant Searching(s, start, t, added)
      decreases end - Seconds(t)
    {
      ghost var t0 := t;
      var wrapped;
      t, added, wrapped := Pass(s, start, limit, t, added);
      BeforeIsEarlier(t0, t);
      if !wrapped {
        return t, true;
      }
    }
    found := false;
  }

  /** The first activation after `now` (in nanoseconds), as a UTC second. In a zone of whole
      minutes it is the least matching second, or none when nothing matches up to the end of the
      fifth year after the start: what trying one second after the other would find. In any other
      zone the truncation to the minute skips one. */
  method Next(s: SpecSchedule, now: int) returns (r: Option<int>)
    ensures r.Some? ==> now < r.value * 1_000_000_000 && Matches(s, Local(s, r.value))
    ensures if Over(s) == 0 then Exact(s, now, r) && r == SecondBySecond(s, now) else Skips(s, now, r)
  {
    var start := Local(s, Upcoming(now));
    var limit := Year(start.day) + 5;
    var t, found := Search(s, start, limit);
    if !found {
      if Over(s) == 0 {
        NothingUntil(s, now, t, limit);
        ExactIsSecondBySecond(s, now, None);
      }
      return None;
    }
    Found(s, now, start, t);
    r := Some(Seconds(t) - s.offset);
    if Over(s) == 0 { ExactIsSecondBySecond(s, now, r); }
  }

  /** The first of the seconds from `x` up to `end` that matches. */
  function FirstMatch(s: SpecSchedule, x: int, end: int): (r: Option<int>)
    ensures r.Some? ==> x <= r.value < end && Matches(s, Local(s, r.value))
    ensures forall y | x <= y < (if r.Some? then r.value else end) :: !Matches(s, Local(s, y))
    decreases end - x
  {
    if x >= end then None else if Matches(s, Local(s, x)) then Some(x) else FirstMatch(s, x + 1, end)
  }

  /** The last UTC second of the last year in which the search looks, and one more. */
  function End(s: SpecSchedule, now: int): int { Seconds(YearEnd(Limit(s, now))) - s.offset }

  /** One second tried after the other. */
  function SecondBySecond(s: SpecSchedule, now: int): Option<int> { FirstMatch(s, Upcoming(now), End(s, now)) }

  lemma InLimit(s: SpecSchedule, now: int, x: int)
    ensures Year(Local(s, x).day) <= Limit(s, now) <==> x < End(s, now)
  {
    var t, end := Local(s, x), YearEnd(Limit(s, now));
    YearEnds(t.day, Limit(s, now));
    BeforeIsEarlier(t, end);
    assert Seconds(t) == x + s.offset;
  }

  lemma SecondBySecondIsExact(s: SpecSchedule, now: int)
    ensures Exact(s, now, SecondBySecond(s, now))
  {
    var r, end := SecondBySecond(s, now), End(s, now);
    if r.Some? {
      InLimit(s, now, r.value);
      UpcomingIsFirst(now, r.value);
      forall x | now < x * 1_000_000_000 && x < r.value ensures !Matches(s, Local(s, x)) { UpcomingIsFirst(now, x); }
    } else {
      forall x | now < x * 1_000_000_000 && Year(Local(s, x).day) <= Limit(s, now) ensures !Matches(s, Local(s, x)) {
        InLimit(s, now, x);
        UpcomingIsFirst(now, x);
      }
    }
  }

  lemma UpcomingIsFirst(now: int, x: int)
    ensures now < x * 1_000_000_000 <==> Upcoming(now) <= x
  {
  }

  lemma OneExactAnswer(s: SpecSchedule, now: int, a: Option<int>, b: Option<int>)
    requires Exact(s, now, a) && Exact(s, now, b)
    ensures a == b
  {
    if a.Some? && b.Some? { OneLeast(s, now, a.value, b.value); }
  }

  lemma OneLeast(s: SpecSchedule, now: int, a: int, b: int)
    requires IsNext(s, now, a) && IsNext(s, now, b)
    ensures a == b
  {
    assert a < b ==> !Matches(s, Local(s, a));
    assert b < a ==> !Matches(s, Local(s, b));
  }

  /** There is exactly one exact answer. */
  lemma ExactIsSecondBySecond(s: SpecSchedule, now: int, r: Option<int>)
    ensures Exact(s, now, r) <==> r == SecondBySecond(s, now)
  {
    SecondBySecondIsExact(s, now);
    if Exact(s, now, r) { OneExactAnswer(s, now, r, SecondBySecond(s, now)); }
  }

  lemma EndOf(limit: int) returns (end: int)
    ensures forall t: Clock | Year(t.day) <= limit :: Seconds(t) < end
  {
    end := Seconds(YearEnd(limit));
    forall t: Clock | Year(t.day) <= limit ensures Seconds(t) < end { InYear(t, limit); }
  }

  lemma InYear(t: Clock, limit: int)
    requires Year(t.day) <= limit
    ensures Seconds(t) < Seconds(YearEnd(limit))
  {
    YearEnds(t.day, limit);
    BeforeIsEarlier(t, YearEnd(limit));
  }

  lemma LocalOf(s: SpecSchedule, t: Clock)
    ensures Local(s, Seconds(t) - s.offset) == t
  {
    BeforeIsEarlier(t, Local(s, Seconds(t) - s.offset));
  }

  lemma LaterThanNow(s: SpecSchedule, now: int, t: Clock)
    requires !Before(t, Local(s, Upcoming(now)))
    ensures now < (Seconds(t) - s.offset) * 1_000_000_000
  {
    BeforeIsEarlier(t, Local(s, Upcoming(now)));
  }

  lemma Found(s: SpecSchedule, now: int, start: Clock, t: Clock)
    requires start == Local(s, Upcoming(now)) && !Before(t, start) && Matches(s, t) && Clear(s, start, t)
    requires Year(t.day) <= Limit(s, now)
    requires Over(s) != 0 && OneSecondEarly(s, start) ==> Before(DueAt(start), t)
    ensures Matches(s, Local(s, Seconds(t) - s.offset)) && now < (Seconds(t) - s.offset) * 1_000_000_000
    ensures var r := Some(Seconds(t) - s.offset); if Over(s) == 0 then Exact(s, now, r) else Skips(s, now, r)
  {
    LocalOf(s, t);
    LaterThanNow(s, now, t);
    if Over(s) == 0 { FoundIsNext(s, now, t); } else { BeforeIsEarlier(DueAt(start), t); }
  }

  /** The reading that is skipped in a zone of odd seconds is the one that was due. */
  lemma SkippedIsDue(s: SpecSchedule, now: int)
    requires OneSecondEarly(s, Local(s, Upcoming(now)))
    ensures IsNext(s, now, Seconds(DueAt(Local(s, Upcoming(now)))) - s.offset)
  {
    var start := Local(s, Upcoming(now));
    assert NoneIn(s, start, DueAt(start));
    FoundIsNext(s, now, DueAt(start));
  }

  /** Every hour at minute 1, second 0. */
  function Hourly(offset: int): SpecSchedule {
    SpecSchedule(One(0), One(1), AllOnes(), AllOnes(), AllOnes(), AllOnes(), offset)
  }

  lemma HourlyIsEarly(offset: int, day: int)
    ensures OneSecondEarly(Hourly(offset), Reading(day, 0, 0, 59))
  {
  }

  /** The instant two seconds before the first minute of a day is over in the zone. */
  function Early(offset: int, day: int): int { (86400 * day + 58 - offset) * 1_000_000_000 }

  lemma EarlyStart(offset: int, day: int)
    ensures Local(Hourly(offset), Upcoming(Early(offset, day))) == Reading(day, 0, 0, 59)
    ensures Local(Hourly(offset), 86400 * day + 60 - offset) == Reading(day, 0, 1, 0)
  {
    var s := Hourly(offset);
    assert Upcoming(Early(offset, day)) == 86400 * day + 59 - offset;
    BeforeIsEarlier(Local(s, Upcoming(Early(offset, day))), Reading(day, 0, 0, 59));
    BeforeIsEarlier(Local(s, 86400 * day + 60 - offset), Reading(day, 0, 1, 0));
  }

  lemma EarlyIsDue(offset: int, day: int)
    ensures OneSecondEarly(Hourly(offset), Local(Hourly(offset), Upcoming(Early(offset, day))))
    ensures IsNext(Hourly(offset), Early(offset, day), 86400 * day + 60 - offset)
    ensures Seconds(DueAt(Local(Hourly(offset), Upcoming(Early(offset, day))))) - offset == 86400 * day + 60 - offset
  {
    EarlyStart(offset, day);
    HourlyIsEarly(offset, day);
    SkippedIsDue(Hourly(offset), Early(offset, day));
  }

  /** Every zone has such a schedule and such an instant, on every day: so the answer is the least matching
      second for all schedules and instants of a zone exactly when the zone is one of whole minutes. */
  lemma EveryZoneIsAskedEarly(offset: int, day: int, r: Option<int>)
    requires Skips(Hourly(offset), Early(offset, day), r)
    ensures IsNext(Hourly(offset), Early(offset, day), 86400 * day + 60 - offset)
    ensures !Exact(Hourly(offset), Early(offset, day), r)
  {
    EarlyIsDue(offset, day);
    EarlyStart(offset, day);
    OnlyOneIsNext(Hourly(offset), Early(offset, day), 86400 * day + 60 - offset, r);
  }

  lemma OnlyOneIsNext(s: SpecSchedule, now: int, y: int, r: Option<int>)
    requires IsNext(s, now, y) && r != Some(y) && Local(s, y).day == Local(s, Upcoming(now)).day
    ensures !Exact(s, now, r)
  {
    assert Year(Local(s, y).day) <= Limit(s, now);
    if r.Some? && r.value < y {
      assert now < r.value * 1_000_000_000 ==> !Matches(s, Local(s, r.value));
    }
  }
}
