/** Lists of scheduler entries as values: the sort order, and how the list shows the table. */
module CronRows {
  import opened CronRuns

  /** What an entry shows at one moment. */
  datatype Row = Row(id: nat, info: Info)

  /** The order of the sort: entries without a next activation come last. */
  predicate Earlier(a: Row, b: Row) {
    a.info.next.Some? && (b.info.next.None? || a.info.next.value < b.info.next.value)
  }

  predicate Sorted(rows: seq<Row>) {
    forall i, j | 0 <= i < j < |rows| :: !Earlier(rows[j], rows[i])
  }

  predicate DistinctIds(rows: seq<Row>) {
    forall i, j | 0 <= i < j < |rows| :: rows[i].id != rows[j].id
  }

  /** The table lists the rows by id. */
  ghost predicate Lists(table: Table, rows: seq<Row>) {
    && (forall r | r in rows :: r.id in table && table[r.id] == r.info)
    && (forall id | id in table :: Row(id, table[id]) in rows)
  }

  ghost predicate SameRows(a: seq<Row>, b: seq<Row>) {
    forall r :: r in a <==> r in b
  }

  function Inserted(rows: seq<Row>, k: nat, r: Row): seq<Row>
    requires k <= |rows|
  {
    rows[..k] + [r] + rows[k..]
  }

  lemma InsertedSorted(rows: seq<Row>, k: nat, r: Row)
    requires k <= |rows| && Sorted(rows)
    requires forall j | 0 <= j < k :: !Earlier(r, rows[j])
    requires k < |rows| ==> Earlier(r, rows[k])
    ensures Sorted(Inserted(rows, k, r))
  {
    forall j | k <= j < |rows| ensures !Earlier(rows[j], r) {
      assert j == k || !Earlier(rows[j], rows[k]);
    }
  }

  lemma InsertedRows(rows: seq<Row>, r: Row)
    ensures forall k: nat, x | k <= |rows| :: x in Inserted(rows, k, r) <==> x == r || x in rows
  {
    forall k: nat, x | k <= |rows| ensures x in Inserted(rows, k, r) <==> x == r || x in rows {
      assert rows == rows[..k] + rows[k..];
    }
  }

  lemma InsertedIds(rows: seq<Row>, r: Row)
    requires DistinctIds(rows)
    ensures (forall x | x in rows :: x.id != r.id) ==> forall k: nat | k <= |rows| :: DistinctIds(Inserted(rows, k, r))
  {
  }

  /** The rows are those of the abstract scheduler state. */
  ghost predicate Shows(rows: seq<Row>, s: State) {
    DistinctIds(rows) && Lists(s.table, rows) && Inv(s)
  }

  lemma SortedShows(rows: seq<Row>, sorted: seq<Row>, s: State)
    requires Shows(rows, s) && DistinctIds(sorted) && SameRows(sorted, rows)
    ensures Shows(sorted, s)
  {
  }

  /** The abstract effect of adding an entry to a scheduler that is running or not. */
  ghost function Added(s: State, info: Info): State {
    CronRuns.State(s.table[s.lastId + 1 := info], s.lastId + 1)
  }

  lemma AddedShows(rows: seq<Row>, s: State, r: Row)
    requires Shows(rows, s) && r.id == s.lastId + 1 && Forward(r.info.schedule)
    ensures Shows(rows + [r], Added(s, r.info))
  {
  }

  lemma OthersShow(rows: seq<Row>, kept: seq<Row>, s: State, id: nat)
    requires Shows(rows, s) && DistinctIds(kept) && forall r :: r in kept <==> r in rows && r.id != id
    ensures Shows(kept, Step(s, Remove(id)))
  {
  }

  function FiredRow(r: Row, now: int): Row { Row(r.id, Fired(r.info, now)) }

  function FiredRows(rows: seq<Row>, now: int): seq<Row> {
    seq(|rows|, i requires 0 <= i < |rows| => FiredRow(rows[i], now))
  }

  lemma FiredShow(rows: seq<Row>, s: State, now: int)
    requires Shows(rows, s)
    ensures Shows(FiredRows(rows, now), Step(s, Wake(now)))
  {
    var fired := FiredRows(rows, now);
    StepKeepsInv(s, Wake(now));
    forall id | id in s.table ensures Row(id, Fired(s.table[id], now)) in fired {
      var i :| 0 <= i < |rows| && rows[i] == Row(id, s.table[id]);
      assert fired[i] in fired;
    }
  }

  function StartedRow(r: Row, now: int): Row { Row(r.id, r.info.(next := r.info.schedule(now))) }

  function StartedRows(rows: seq<Row>, now: int): seq<Row> {
    seq(|rows|, i requires 0 <= i < |rows| => StartedRow(rows[i], now))
  }

  lemma StartedShow(rows: seq<Row>, s: State, now: int)
    requires Shows(rows, s)
    ensures Shows(StartedRows(rows, now), s.(table := AfterStart(s.table, now)))
  {
    var started := StartedRows(rows, now);
    forall id | id in s.table ensures StartedRow(Row(id, s.table[id]), now) in started {
      var i :| 0 <= i < |rows| && rows[i] == Row(id, s.table[id]);
      assert started[i] in started;
    }
  }

  /** In a sorted list the due entries form a prefix: behind one that is not due, none is. */
  lemma DueIsPrefix(rows: seq<Row>, i: nat, now: int)
    requires Sorted(rows) && i <= |rows| && (i < |rows| ==> !Due(rows[i].info, now))
    ensures forall j | i <= j < |rows| :: !Due(rows[j].info, now)
  {
    forall j | i < j < |rows| ensures !Due(rows[j].info, now) {
      assert !Earlier(rows[j], rows[i]);
    }
  }

  lemma StartedAreDue(table: Table, rows: seq<Row>, started: seq<nat>, now: int)
    requires Lists(table, rows) && DistinctIds(rows) && |started| <= |rows|
    requires forall i | 0 <= i < |rows| :: Due(rows[i].info, now) <==> i < |started|
    requires forall i | 0 <= i < |started| :: started[i] == rows[i].id
    ensures forall id :: id in started <==> id in DueIds(table, now)
    ensures forall i, j | 0 <= i < j < |started| :: started[i] != started[j]
  {
    forall id | id in DueIds(table, now) ensures id in started {
      var i :| 0 <= i < |rows| && rows[i] == Row(id, table[id]);
      assert started[i] == id;
    }
    forall i | 0 <= i < |started| ensures started[i] in DueIds(table, now) {
      assert rows[i] in rows;
    }
  }
}
