/** The scheduler with the schedules it ships: what starts is what the fields of a schedule say. */
module CronShipped {
  import opened Options
  import opened Calendar
  import opened CronSpec
  import opened CronRuns

  const NANOS: int := 1_000_000_000

  function Nanos(second: Option<int>): Option<int> {
    if second.None? then None else Some(second.value * NANOS)
  }

  /** What `Next` promises of its answer. */
  ghost predicate Answers(s: SpecSchedule, now: int, r: Option<int>) {
    && (r.Some? ==> now < r.value * NANOS && Matches(s, Local(s, r.value)))
    && if Over(s) == 0 then Exact(s, now, r) else Skips(s, now, r)
  }

  /** The schedule answers as `Next` does, in nanoseconds. */
  ghost predicate Ships(s: SpecSchedule, f: Schedule) {
    forall now :: AnswersAt(s, f, now)
  }

  ghost predicate AnswersAt(s: SpecSchedule, f: Schedule, now: int) {
    exists r :: Answers(s, now, r) && f(now) == Nanos(r)
  }

  /** Such a schedule moves forward, so what holds of every run holds of the shipped schedules. */
  lemma ShippedIsForward(s: SpecSchedule, f: Schedule)
    requires Ships(s, f)
    ensures Forward(f)
  {
    forall now | f(now).Some? ensures f(now).value > now {
      assert AnswersAt(s, f, now);
    }
  }

  /** In a zone of whole minutes there is one: trying one second after the other. */
  lemma SecondBySecondShips(s: SpecSchedule)
    requires Over(s) == 0
    ensures Ships(s, (now: int) => Nanos(SecondBySecond(s, now)))
  {
    var f := (now: int) => Nanos(SecondBySecond(s, now));
    forall now ensures AnswersAt(s, f, now) {
      var r := SecondBySecond(s, now);
      ExactIsSecondBySecond(s, now, r);
      assert Answers(s, now, r);
    }
  }

  /** The instant at which the entry's next activation was computed last. */
  function Asked(st: State, events: seq<Event>, id: nat, at: int): int
    decreases |events|
  {
    if events == [] then at
    else Asked(Step(st, events[0]), events[1..], id, if Starts(st, events[0], id) then events[0].now else at)
  }

  /** If the entry is there, it has this schedule and the activation computed at `at`. */
  ghost predicate Keeps(st: State, id: nat, f: Schedule, at: int) {
    id <= st.lastId && (id in st.table ==> st.table[id].schedule == f && st.table[id].next == f(at))
  }

  lemma {:induction false} RunKeeps(st: State, events: seq<Event>, id: nat, f: Schedule, at: int)
    requires Keeps(st, id, f, at)
    ensures Keeps(Run(st, events), id, f, Asked(st, events, id, at))
    decreases |events|
  {
    if events != [] {
      var e := events[0];
      RunKeeps(Step(st, e), events[1..], id, f, if Starts(st, e, id) then e.now else at);
    }
  }

  /** The state after an entry was added. */
  function Added(st: State, f: Schedule, at: int): State { Step(st, Add(f, at)) }

  ghost predicate IsMatch(s: SpecSchedule, a: int) {
    exists x :: a == x * NANOS && Matches(s, Local(s, x))
  }

  /** In every run an entry is started only for seconds that match all fields of its schedule, in every zone. */
  lemma EveryActivationMatches(st: State, s: SpecSchedule, f: Schedule, at: int, events: seq<Event>)
    requires Ships(s, f)
    ensures forall a | a in Activations(Added(st, f, at), events, st.lastId + 1) :: IsMatch(s, a)
  {
    KeptActivationsMatch(Added(st, f, at), s, f, at, events, st.lastId + 1);
  }

  lemma {:induction false} KeptActivationsMatch(st: State, s: SpecSchedule, f: Schedule, at: int, events: seq<Event>,
                                                id: nat)
    requires Ships(s, f) && Keeps(st, id, f, at)
    ensures forall a | a in Activations(st, events, id) :: IsMatch(s, a)
    decreases |events|
  {
    if events != [] {
      var e := events[0];
      assert AnswersAt(s, f, at);
      KeptActivationsMatch(Step(st, e), s, f, if Starts(st, e, id) then e.now else at, events[1..], id);
    }
  }

  /** A second that matches, after `from` and not after `now`, in the years in which the search looks. */
  predicate FellDue(s: SpecSchedule, from: int, now: int, x: int) {
    from < x * NANOS <= now && Matches(s, Local(s, x)) && Year(Local(s, x).day) <= Limit(s, from)
  }

  /** `a` is the least such second, in nanoseconds. */
  ghost predicate IsFirstDue(s: SpecSchedule, from: int, now: int, a: int) {
    FellDue(s, from, now, a / NANOS) && a % NANOS == 0 && forall y | FellDue(s, from, now, y) :: a <= y * NANOS
  }

  /** In every run, in a zone of whole minutes: a wake starts an entry that is still there exactly when a
      matching second has passed since its next activation was computed, and starts it for the least one. */
  lemma WakeStartsWhatFellDue(st: State, s: SpecSchedule, f: Schedule, at: int, events: seq<Event>, now: int,
                              run: State, from: int)
    requires Ships(s, f) && Over(s) == 0
    requires run == Run(Added(st, f, at), events) && st.lastId + 1 in run.table
    requires from == Asked(Added(st, f, at), events, st.lastId + 1, at)
    ensures Starts(run, Wake(now), st.lastId + 1) <==> exists x :: FellDue(s, from, now, x)
    ensures Starts(run, Wake(now), st.lastId + 1) ==> IsFirstDue(s, from, now, run.table[st.lastId + 1].next.value)
  {
    AddedKeeps(st, f, at);
    RunKeeps(Added(st, f, at), events, st.lastId + 1, f, at);
    KeptStarts(run, s, f, from, st.lastId + 1, now);
  }

  lemma AddedKeeps(st: State, f: Schedule, at: int)
    ensures Keeps(Added(st, f, at), st.lastId + 1, f, at)
  {
  }

  lemma KeptStarts(run: State, s: SpecSchedule, f: Schedule, from: int, id: nat, now: int)
    requires Ships(s, f) && Over(s) == 0 && Keeps(run, id, f, from) && id in run.table
    ensures Starts(run, Wake(now), id) <==> exists x :: FellDue(s, from, now, x)
    ensures Starts(run, Wake(now), id) ==> IsFirstDue(s, from, now, run.table[id].next.value)
  {
    assert AnswersAt(s, f, from);
    var r :| Answers(s, from, r) && f(from) == Nanos(r);
    assert Starts(run, Wake(now), id) <==> r.Some? && r.value * NANOS <= now;
    DueIsFirst(s, from, now, r);
  }

  lemma DueIsFirst(s: SpecSchedule, from: int, now: int, r: Option<int>)
    requires Exact(s, from, r)
    ensures r.Some? && r.value * NANOS <= now <==> exists x :: FellDue(s, from, now, x)
    ensures r.Some? && r.value * NANOS <= now ==> IsFirstDue(s, from, now, r.value * NANOS)
  {
    forall y | FellDue(s, from, now, y) ensures r.Some? && r.value <= y { NoneBefore(s, from, r, y); }
    if r.Some? && r.value * NANOS <= now {
      assert FellDue(s, from, now, r.value);
      assert r.value * NANOS / NANOS == r.value;
    }
  }

  lemma NoneBefore(s: SpecSchedule, from: int, r: Option<int>, y: int)
    requires Exact(s, from, r) && from < y * NANOS && Matches(s, Local(s, y)) && Year(Local(s, y).day) <= Limit(s, from)
    ensures r.Some? && r.value <= y
  {
  }
}
