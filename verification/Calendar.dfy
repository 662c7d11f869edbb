/** The proleptic Gregorian calendar in a zone with a fixed offset. Times are seconds since
    midnight of 1 January of year 1 on the zone's own clock; days and months are numbered, with
    month 12 * y + m - 1 standing for month m of year y. */
module Calendar {
  predicate IsLeap(y: int) { y % 4 == 0 && (y % 100 != 0 || y % 400 == 0) }

  /** The length of a month. */
  function MonthDays(k: int): (n: nat)
    ensures 28 <= n <= 31
  {
    var m := k % 12 + 1;
    if m == 2 then (if IsLeap(k / 12) then 29 else 28)
    else if m == 4 || m == 6 || m == 9 || m == 11 then 30
    else 31
  }

  /** The number of the first day of a month: day 0 begins month 12, January of year 1. */
  function MonthStart(k: int): int
    decreases if k < 12 then 12 - k else k - 12
  {
    if k == 12 then 0
    else if k > 12 then MonthStart(k - 1) + MonthDays(k - 1)
    else MonthStart(k + 1) - MonthDays(k)
  }

  lemma MonthLength(k: int)
    ensures MonthStart(k + 1) == MonthStart(k) + MonthDays(k)
  {
  }

  lemma {:induction false} MonthsAscend(j: int, k: int)
    requires j <= k
    ensures MonthStart(j) + 28 * (k - j) <= MonthStart(k)
    decreases k - j
  {
    if j < k {
      MonthLength(k - 1);
      MonthsAscend(j, k - 1);
    }
  }

  /** The month a day lies in. */
  function MonthOfDay(day: int): (k: int)
    ensures MonthStart(k) <= day < MonthStart(k + 1)
  {
    SeekMonth(day, day / 31)
  }

  function SeekMonth(day: int, k: int): (r: int)
    ensures MonthStart(r) <= day < MonthStart(r + 1)
    decreases if day < MonthStart(k) then MonthStart(k) - day
              else if day >= MonthStart(k + 1) then day - MonthStart(k + 1) + 1 else 0
  {
    MonthLength(k - 1);
    MonthLength(k);
    MonthLength(k + 1);
    if day < MonthStart(k) then SeekMonth(day, k - 1)
    else if day >= MonthStart(k + 1) then SeekMonth(day, k + 1)
    else k
  }

  lemma MonthOfDayUnique(day: int, k: int)
    requires MonthStart(k) <= day < MonthStart(k + 1)
    ensures MonthOfDay(day) == k
  {
    var r := MonthOfDay(day);
    if r < k { MonthsAscend(r + 1, k); } else if k < r { MonthsAscend(k + 1, r); }
  }

  function Year(day: int): int { MonthOfDay(day) / 12 }

  /** The fields a schedule looks at: month 1 to 12, day of the month from 1, weekday 0 for Sunday. */
  function Month(day: int): (m: nat)
    ensures 1 <= m <= 12
  {
    MonthOfDay(day) % 12 + 1
  }

  function DayOfMonth(day: int): (d: nat)
    ensures 1 <= d <= 31
  {
    MonthLength(MonthOfDay(day));
    day - MonthStart(MonthOfDay(day)) + 1
  }

  function Weekday(day: int): (d: nat)
    ensures d < 7
  {
    (day + 1) % 7
  }

  /** What a clock on the wall shows: the day's number and the time of day. */
  datatype Reading = Reading(day: int, hour: nat, minute: nat, second: nat)

  type Clock = c: Reading | c.hour < 24 && c.minute < 60 && c.second < 60 witness Reading(0, 0, 0, 0)

  /** Seconds since midnight of day 0. */
  function Seconds(c: Clock): int { 86400 * c.day + 3600 * c.hour + 60 * c.minute + c.second }

  function ClockAt(t: int): (c: Clock)
    ensures Seconds(c) == t
  {
    var day := t / 86400;
    var left := t - 86400 * day;
    var hour := left / 3600;
    var rest := left - 3600 * hour;
    Reading(day, hour, rest / 60, rest % 60)
  }

  predicate Before(a: Clock, b: Clock) {
    a.day < b.day || (a.day == b.day &&
    (a.hour < b.hour || (a.hour == b.hour &&
    (a.minute < b.minute || (a.minute == b.minute && a.second < b.second)))))
  }

  lemma BeforeIsEarlier(a: Clock, b: Clock)
    ensures Before(a, b) <==> Seconds(a) < Seconds(b)
    ensures a == b <==> Seconds(a) == Seconds(b)
  {
  }

  /** Adding one unit, with the carries it causes. */
  function AddSecond(c: Clock): (r: Clock)
    ensures Seconds(r) == Seconds(c) + 1
  {
    if c.second < 59 then c.(second := c.second + 1) else AddMinute(c.(second := 0))
  }

  function AddMinute(c: Clock): (r: Clock)
    ensures Seconds(r) == Seconds(c) + 60
  {
    if c.minute < 59 then c.(minute := c.minute + 1) else AddHour(c.(minute := 0))
  }

  function AddHour(c: Clock): (r: Clock)
    ensures Seconds(r) == Seconds(c) + 3600
  {
    if c.hour < 23 then c.(hour := c.hour + 1) else AddDay(c.(hour := 0))
  }

  function AddDay(c: Clock): (r: Clock)
    ensures Seconds(r) == Seconds(c) + 86400
  {
    c.(day := c.day + 1)
  }

  /** `AddDate(0, 1, 0)`: the same day number in the next month, overflowing into the one after. */
  function AddMonth(c: Clock): Clock {
    c.(day := MonthStart(MonthOfDay(c.day) + 1) + DayOfMonth(c.day) - 1)
  }

  /** Truncating to the minute works on the absolute time: in a zone whose offset leaves `over`
      seconds over, the clock then shows second `over`, possibly of the minute before. */
  function TruncateMinute(c: Clock, over: nat): (r: Clock)
    requires over < 60
    ensures Seconds(r) == Seconds(c) - (c.second - over) % 60
  {
    if over <= c.second then c.(second := over)
    else if c.minute > 0 then c.(minute := c.minute - 1, second := over)
    else if c.hour > 0 then c.(hour := c.hour - 1, minute := 59, second := over)
    else Reading(c.day - 1, 23, 59, over)
  }
}
