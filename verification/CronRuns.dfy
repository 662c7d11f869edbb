/** The scheduler as a table of entries, and what holds over every run of its steps. */
module CronRuns {
  import opened Options

  /** A schedule maps an instant to its next activation, if it has one. */
  type Schedule = int -> Option<int>

  /** The contract of a schedule: the next activation is later than the given time. */
  ghost predicate Forward(schedule: Schedule) {
    forall now :: schedule(now).Some? ==> schedule(now).value > now
  }

  /** An entry's schedule, its next activation and the last one it was started for. */
  datatype Info = Info(schedule: Schedule, next: Option<int>, prev: Option<int>)

  type Table = map<nat, Info>

  predicate Due(e: Info, now: int) {
    e.next.Some? && e.next.value <= now
  }

  function Fired(e: Info, now: int): Info {
    if Due(e, now) then Info(e.schedule, e.schedule(now), e.next) else e
  }

  function Scheduled(schedule: Schedule, now: int): Info { Info(schedule, schedule(now), None) }

  function AfterWake(t: Table, now: int): Table { map id | id in t :: Fired(t[id], now) }

  function DueIds(t: Table, now: int): set<nat> {
    set id | id in t && Due(t[id], now)
  }

  /** Starting computes every next activation afresh. */
  function AfterStart(t: Table, now: int): Table { map id | id in t :: t[id].(next := t[id].schedule(now)) }

  /** The running scheduler: its entries and the last id it handed out. */
  datatype State = State(table: Table, lastId: nat)

  datatype Event = Add(schedule: Schedule, now: int) | Remove(id: nat) | Wake(now: int) | Snapshot

  function Step(s: State, e: Event): State {
    match e
    case Add(schedule, now) => State(s.table[s.lastId + 1 := Scheduled(schedule, now)], s.lastId + 1)
    case Remove(id) => s.(table := s.table - {id})
    case Wake(now) => s.(table := AfterWake(s.table, now))
    case Snapshot => s
  }

  function Run(s: State, events: seq<Event>): State
    decreases |events|
  {
    if events == [] then s else Run(Step(s, events[0]), events[1..])
  }

  ghost predicate Inv(s: State) {
    forall id | id in s.table :: 1 <= id <= s.lastId && Forward(s.table[id].schedule)
  }

  ghost predicate Sound(e: Event) { e.Add? ==> Forward(e.schedule) }

  /** Whether the event starts the entry. */
  predicate Starts(s: State, e: Event, id: nat) {
    e.Wake? && id in DueIds(s.table, e.now)
  }

  /** The activation times an entry is started for, in the order of the run. */
  function Activations(s: State, events: seq<Event>, id: nat): seq<int>
    decreases |events|
  {
    if events == [] then []
    else (if Starts(s, events[0], id) then [s.table[id].next.value] else [])
         + Activations(Step(s, events[0]), events[1..], id)
  }

  lemma StepKeepsInv(s: State, e: Event)
    requires Inv(s) && Sound(e)
    ensures Inv(Step(s, e)) && s.lastId <= Step(s, e).lastId
  {
  }

  /** A wake leaves nothing due: every next activation is none or later than now. */
  lemma NothingDueAfterWake(s: State, now: int)
    requires Inv(s)
    ensures DueIds(Step(s, Wake(now)).table, now) == {}
    ensures Step(s, Wake(now)).table.Keys == s.table.Keys
  {
    forall id | id in s.table ensures !Due(Fired(s.table[id], now), now) {
      assert Forward(s.table[id].schedule);
    }
  }

  /** An id that was handed out and is gone stays gone: it never starts again. */
  lemma {:induction false} GoneForGood(s: State, events: seq<Event>, id: nat)
    requires Inv(s) && (forall e | e in events :: Sound(e)) && id <= s.lastId && id !in s.table
    ensures id !in Run(s, events).table && Activations(s, events, id) == []
    decreases |events|
  {
    if events != [] {
      assert events[0] in events;
      StepKeepsInv(s, events[0]);
      GoneForGood(Step(s, events[0]), events[1..], id);
    }
  }

  /** In every run, a removed entry never starts afterwards. */
  lemma RemovedNeverStarts(s: State, before: seq<Event>, id: nat, after: seq<Event>)
    requires Inv(s) && (forall e | e in before + after :: Sound(e)) && id <= Run(s, before).lastId
    ensures Activations(Step(Run(s, before), Remove(id)), after, id) == []
  {
    assert forall e | e in before :: e in before + after;
    assert forall e | e in after :: e in before + after;
    RunKeepsInv(s, before);
    StepKeepsInv(Run(s, before), Remove(id));
    GoneForGood(Step(Run(s, before), Remove(id)), after, id);
  }

  lemma {:induction false} RunKeepsInv(s: State, events: seq<Event>)
    requires Inv(s) && forall e | e in events :: Sound(e)
    ensures Inv(Run(s, events)) && s.lastId <= Run(s, events).lastId
    decreases |events|
  {
    if events != [] {
      assert events[0] in events;
      StepKeepsInv(s, events[0]);
      RunKeepsInv(Step(s, events[0]), events[1..]);
    }
  }

  predicate Increasing(a: seq<int>) { forall i, j | 0 <= i < j < |a| :: a[i] < a[j] }

  /** All activations of an entry still to come are at or after its next one. */
  lemma {:induction false} ActivationsFrom(s: State, events: seq<Event>, id: nat)
    requires Inv(s) && (forall e | e in events :: Sound(e)) && id <= s.lastId
    ensures var a := Activations(s, events, id);
            Increasing(a) && (a != [] ==> id in s.table && s.table[id].next.Some? && s.table[id].next.value <= a[0])
    decreases |events|
  {
    if events != [] {
      var e := events[0];
      assert e in events;
      StepKeepsInv(s, e);
      if id in s.table && Starts(s, e, id) {
        assert Forward(s.table[id].schedule);
      }
      ActivationsFrom(Step(s, e), events[1..], id);
    }
  }

  /** In every run an entry is started for strictly increasing activation times: never twice for
      the same one, whatever the wake-up times are. */
  lemma NoActivationTwice(s: State, events: seq<Event>, id: nat)
    requires Inv(s) && (forall e | e in events :: Sound(e)) && id <= s.lastId
    ensures Increasing(Activations(s, events, id))
  {
    ActivationsFrom(s, events, id);
  }
}
