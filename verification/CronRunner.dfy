/** The scheduler object: a list of entries kept sorted by next activation. Each method does to
    the table of entries what the corresponding step of CronRuns says. */
module CronRunner {
  import opened Options
  import opened CronRows
  import opened CronRuns

  class Entry {
    const id: nat
    const schedule: Schedule
    var next: Option<int>
    var prev: Option<int>

    constructor (id: nat, schedule: Schedule, next: Option<int>)
      ensures View() == Row(id, Info(schedule, next, None))
    {
      this.id, this.schedule, this.next, prev := id, schedule, next, None;
    }

    function View(): Row
      reads this
    {
      Row(id, Info(schedule, next, prev))
    }
  }

  /** The entries show these rows. */
  ghost predicate Views(entries: seq<Entry>, rows: seq<Row>)
    reads entries
  {
    |entries| == |rows| && forall i | 0 <= i < |rows| :: entries[i].View() == rows[i]
  }

  lemma ViewsMore(entries: seq<Entry>, rows: seq<Row>, e: Entry, r: Row)
    requires Views(entries, rows) && e.View() == r
    ensures Views(entries + [e], rows + [r])
  {
  }

  /** Puts an entry where the sort wants it. */
  method Insert(sorted: seq<Entry>, e: Entry, ghost rows: seq<Row>) returns (r: seq<Entry>, ghost k: nat)
    requires Views(sorted, rows) && Sorted(rows)
    ensures k <= |rows| && Views(r, Inserted(rows, k, e.View())) && Sorted(Inserted(rows, k, e.View()))
  {
    ghost var row := e.View();
    var at := 0;
    while at < |sorted| && !Earlier(e.View(), sorted[at].View())
      invariant at <= |sorted| && forall j | 0 <= j < at :: !Earlier(row, rows[j])
    {
      at := at + 1;
    }
    InsertedSorted(rows, at, row);
    r, k := sorted[..at] + [e] + sorted[at..], at;
  }

  /** The entries in the order of their next activations. */
  method SortEntries(entries: seq<Entry>, ghost rows: seq<Row>) returns (sorted: seq<Entry>, ghost order: seq<Row>)
    requires Views(entries, rows) && DistinctIds(rows)
    ensures Views(sorted, order) && Sorted(order) && DistinctIds(order) && SameRows(order, rows)
  {
    sorted, order := [], [];
    for i := 0 to |entries|
      invariant Views(sorted, order) && Sorted(order) && DistinctIds(order) && SameRows(order, rows[..i])
    {
      ghost var k;
      assert rows[..i + 1] == rows[..i] + [rows[i]];
      InsertedIds(order, rows[i]);
      InsertedRows(order, rows[i]);
      sorted, k := Insert(sorted, entries[i], order);
      order := Inserted(order, k, rows[i]);
    }
    assert rows[..|entries|] == rows;
  }

  /** Starts the due entries from the front of the list, up to the first one that is not due. */
  method FireDue(entries: seq<Entry>, now: int, ghost rows: seq<Row>) returns (started: seq<nat>)
    requires Views(entries, rows) && Sorted(rows) && DistinctIds(rows)
    modifies entries
    ensures Views(entries, FiredRows(rows, now))
    ensures |started| <= |rows|
    ensures forall i | 0 <= i < |rows| :: Due(rows[i].info, now) <==> i < |started|
    ensures forall i | 0 <= i < |started| :: started[i] == rows[i].id
  {
    started := [];
    for i := 0 to |entries|
      invariant |started| == i
      invariant forall j | 0 <= j < i :: started[j] == rows[j].id && Due(rows[j].info, now)
      invariant forall j | 0 <= j < i :: entries[j].View() == FiredRow(rows[j], now)
      invariant forall j | i <= j < |entries| :: entries[j].View() == rows[j]
    {
      var e := entries[i];
      assert rows[i] == e.View();
      if e.next.None? || e.next.value > now {
        DueIsPrefix(rows, i, now);
        return;
      }
      started := started + [e.id];
      e.prev, e.next := e.next, e.schedule(now);
    }
  }

  /** Every entry but the one with the given id. */
  method Others(entries: seq<Entry>, id: nat, ghost rows: seq<Row>) returns (kept: seq<Entry>, ghost left: seq<Row>)
    requires Views(entries, rows) && DistinctIds(rows)
    ensures Views(kept, left) && DistinctIds(left) && forall r :: r in left <==> r in rows && r.id != id
  {
    kept, left := [], [];
    for i := 0 to |entries|
      invariant Views(kept, left) && DistinctIds(left) && forall r :: r in left <==> r in rows[..i] && r.id != id
    {
      assert rows[..i + 1] == rows[..i] + [rows[i]] && rows[i] == entries[i].View();
      if entries[i].id != id {
        kept, left := kept + [entries[i]], left + [rows[i]];
      }
    }
    assert rows[..|entries|] == rows;
  }

  /** Computes every entry's next activation. */
  method ScheduleAll(entries: seq<Entry>, now: int, ghost rows: seq<Row>)
    requires Views(entries, rows) && DistinctIds(rows)
    modifies entries
    ensures Views(entries, StartedRows(rows, now))
  {
    for i := 0 to |entries|
      invariant forall j | 0 <= j < i :: entries[j].View() == StartedRow(rows[j], now)
      invariant forall j | i <= j < |entries| :: entries[j].View() == rows[j]
    {
      assert rows[i] == entries[i].View();
      entries[i].next := entries[i].schedule(now);
    }
  }

  class Cron {
    var entries: seq<Entry>
    var nextID: nat
    var running: bool

    ghost var rows: seq<Row>  // what the entries show
    ghost var state: State    // the same as a table, and the last id

    ghost predicate Valid()
      reads this, entries
    {
      Views(entries, rows) && Shows(rows, state) && nextID == state.lastId && (running ==> Sorted(rows))
    }

    constructor ()
      ensures Valid() && !running && state == CronRuns.State(map[], 0)
    {
      entries, nextID, running := [], 0, false;
      rows, state := [], CronRuns.State(map[], 0);
    }

    /** Installs a list; a running scheduler sorts it at the top of its loop. */
    method Install(list: seq<Entry>, ghost listed: seq<Row>)
      requires Views(list, listed) && Shows(listed, state) && nextID == state.lastId
      modifies `entries, `rows
      ensures Valid()
    {
      entries, rows := list, listed;
      if running {
        var sorted;
        ghost var order;
        sorted, order := SortEntries(list, listed);
        SortedShows(listed, order, state);
        entries, rows := sorted, order;
      }
    }

    /** Adds an entry; a running scheduler also computes its first activation. */
    method Schedule(schedule: Schedule, now: int) returns (id: nat)
      requires Valid() && Forward(schedule)
      modifies this
      ensures Valid() && running == old(running) && id == state.lastId
      ensures state == if running then Step(old(state), Add(schedule, now))
                       else Added(old(state), Info(schedule, None, None))
    {
      id := nextID + 1;
      var next := if running then schedule(now) else None;
      ghost var row := Row(id, Info(schedule, next, None));
      AddedShows(rows, state, row);
      var entry := new Entry(id, schedule, next);
      ViewsMore(entries, rows, entry, row);
      nextID, state := id, Added(state, row.info);
      Install(entries + [entry], rows + [row]);
    }

    method Remove(id: nat)
      requires Valid()
      modifies this
      ensures Valid() && running == old(running) && state == Step(old(state), CronRuns.Remove(id))
    {
      var kept;
      ghost var left;
      kept, left := Others(entries, id, rows);
      OthersShow(rows, left, state, id);
      state := Step(state, CronRuns.Remove(id));
      Install(kept, left);
    }

    /** The timer fired: starts the due entries, each once, and sorts again. Returns the ids
        started, in order. */
    method WakeUp(now: int) returns (started: seq<nat>)
      requires Valid() && running
      modifies this, entries
      ensures Valid() && running && state == Step(old(state), Wake(now))
      ensures forall id :: id in started <==> id in DueIds(old(state).table, now)
      ensures forall i, j | 0 <= i < j < |started| :: started[i] != started[j]
    {
      started := FireDue(entries, now, rows);
      FiredShow(rows, state, now);
      StartedAreDue(state.table, rows, started, now);
      state := Step(state, Wake(now));
      Install(entries, FiredRows(rows, now));
    }

    method Start(now: int)
      requires Valid()
      modifies this, entries
      ensures Valid() && running
      ensures state == if old(running) then old(state) else old(state).(table := AfterStart(old(state).table, now))
    {
      if running { return; }
      running := true;
      ScheduleAll(entries, now, rows);
      StartedShow(rows, state, now);
      state := state.(table := AfterStart(state.table, now));
      Install(entries, StartedRows(rows, now));
    }

    /** A copy of the entries; nothing changes. */
    method EntrySnapshot() returns (copy: seq<Row>)
      requires Valid()
      ensures copy == rows && Shows(copy, state)
    {
      copy := [];
      for i := 0 to |entries|
        invariant copy == rows[..i]
      {
        assert entries[i].View() == rows[i];
        copy := copy + [entries[i].View()];
      }
    }
  }
}
