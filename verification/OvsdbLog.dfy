/** Tables of rows, logs of row changes, and what replaying a log does. */
module OvsdbLog {
  import opened Basics
  import opened OvsdbValues

  type Rows = map<string, Row>

  type Tables = map<string, Rows>

  /** One row change, as it is recorded for monitor notifications. */
  datatype Change =
    | Inserted(table: string, uuid: string, newRow: Row)
    | Updated(table: string, uuid: string, oldRow: Row, newRow: Row)
    | Deleted(table: string, uuid: string, oldRow: Row)

  /** Every row carries its own key as its uuid, and keys are not blank. */
  predicate WellFormed(tables: Tables)
  {
    forall t, id :: t in tables && id in tables[t] ==> RowFormed(id, tables[t][id])
  }

  predicate RowFormed(id: string, row: Row)
  {
    id != "" && "_uuid" in row && row["_uuid"] == UuidRef(id)
  }

  /** What a change leaves at its place: a row, or none. */
  function Written(ch: Change): Option<Row>
  {
    if ch.Deleted? then None else Some(ch.newRow)
  }

  function PutRow(rows: Rows, id: string, row: Option<Row>): Rows
  {
    if row.Some? then rows[id := row.value] else rows - {id}
  }

  function Patch(tables: Tables, ch: Change): Tables
  {
    if ch.table in tables then tables[ch.table := PutRow(tables[ch.table], ch.uuid, Written(ch))] else tables
  }

  /** The tables after the changes of a log, in order. */
  function Replay(tables: Tables, log: seq<Change>): Tables
    decreases |log|
  {
    if log == [] then tables else Replay(Patch(tables, log[0]), log[1..])
  }

  /** Each change says truly what it replaces: the old row of an update or a delete is the row found
      there when the log is replayed up to it. */
  predicate Truthful(tables: Tables, log: seq<Change>)
    decreases |log|
  {
    log == [] ||
    (Says(tables, log[0]) && Truthful(Patch(tables, log[0]), log[1..]))
  }

  predicate Says(tables: Tables, ch: Change)
  {
    && ch.table in tables
    && (ch.Updated? || ch.Deleted? ==> ch.uuid in tables[ch.table] && tables[ch.table][ch.uuid] == ch.oldRow)
  }

  lemma EmptyLog(tables: Tables)
    ensures Replay(tables, []) == tables && Truthful(tables, [])
  {
  }

  lemma {:induction false} ReplayConcat(tables: Tables, log: seq<Change>, more: seq<Change>)
    ensures Replay(tables, log + more) == Replay(Replay(tables, log), more)
    ensures Truthful(tables, log + more) <==> Truthful(tables, log) && Truthful(Replay(tables, log), more)
    decreases |log|
  {
    if log == [] {
      assert log + more == more;
    } else {
      assert (log + more)[1..] == log[1..] + more;
      ReplayConcat(Patch(tables, log[0]), log[1..], more);
    }
  }

  lemma {:induction false} ReplayOne(tables: Tables, log: seq<Change>, ch: Change)
    ensures Replay(tables, log + [ch]) == Patch(Replay(tables, log), ch)
    ensures Truthful(tables, log) && Says(Replay(tables, log), ch) ==> Truthful(tables, log + [ch])
  {
    ReplayConcat(tables, log, [ch]);
    assert [ch][1..] == [];
    assert Replay(Replay(tables, log), [ch]) == Replay(Patch(Replay(tables, log), ch), []);
  }

  // ---- Last writes -----------------------------------------------------------------------------

  /** The row at a place, if the place is there. */
  function Cell(tables: Tables, t: string, id: string): Option<Row>
  {
    if t in tables && id in tables[t] then Some(tables[t][id]) else None
  }

  /** What the log writes last at a place, if it writes there at all. */
  function LastWrite(log: seq<Change>, t: string, id: string): Option<Option<Row>>
  {
    if log == [] then None
    else
      var last := log[|log| - 1];
      if last.table == t && last.uuid == id then Some(Written(last)) else LastWrite(log[..|log| - 1], t, id)
  }

  lemma {:induction false} ReplayTables(tables: Tables, log: seq<Change>)
    ensures Replay(tables, log).Keys == tables.Keys
    decreases |log|
  {
    if log != [] {
      ReplayTables(Patch(tables, log[0]), log[1..]);
    }
  }

  /** A place holds what was last written there, or what it held before. */
  lemma {:induction false} ReplayCell(tables: Tables, log: seq<Change>, t: string, id: string)
    requires t in tables
    ensures Cell(Replay(tables, log), t, id) ==
            if LastWrite(log, t, id).Some? then LastWrite(log, t, id).value else Cell(tables, t, id)
    decreases |log|
  {
    if log != [] {
      var init, last := log[..|log| - 1], log[|log| - 1];
      assert log == init + [last];
      ReplayOne(tables, init, last);
      ReplayCell(tables, init, t, id);
      ReplayTables(tables, init);
    }
  }

  lemma {:induction false} LastWriteOfSuffix(log: seq<Change>, k: nat, t: string, id: string)
    requires k <= |log|
    ensures LastWrite(log[k..], t, id).Some? ==> LastWrite(log[k..], t, id) == LastWrite(log, t, id)
    decreases |log|
  {
    if k < |log| {
      var n := |log| - 1;
      assert log[k..][..n - k] == log[..n][k..];
      LastWriteOfSuffix(log[..n], k, t, id);
    }
  }

  lemma {:induction false} SameTables(a: Tables, b: Tables)
    requires a.Keys == b.Keys
    requires forall t, id :: t in a ==> Cell(a, t, id) == Cell(b, t, id)
    ensures a == b
  {
    forall t | t in a
      ensures a[t] == b[t]
    {
      forall id | id in a[t] || id in b[t]
        ensures id in a[t] && id in b[t] && a[t][id] == b[t][id]
      {
        assert Cell(a, t, id) == Cell(b, t, id);
      }
    }
  }

  /** The log has nothing left to say to these tables: replaying it, or any suffix of it, changes nothing. */
  ghost predicate Settled(tables: Tables, log: seq<Change>)
  {
    forall k :: 0 <= k <= |log| ==> Replay(tables, log[k..]) == tables
  }

  /** Late subscribers converge: replaying any suffix of a log on the state the whole log leads to changes
      nothing, so a snapshot taken while the log is still being sent out needs no special treatment. */
  lemma {:induction false} LateReplay(before: Tables, log: seq<Change>)
    ensures Settled(Replay(before, log), log)
  {
    var tables := Replay(before, log);
    ReplayTables(before, log);
    forall k | 0 <= k <= |log|
      ensures Replay(tables, log[k..]) == tables
    {
      ReplayTables(tables, log[k..]);
      forall t, id | t in tables
        ensures Cell(Replay(tables, log[k..]), t, id) == Cell(tables, t, id)
      {
        ReplayCell(tables, log[k..], t, id);
        ReplayCell(before, log, t, id);
        LastWriteOfSuffix(log, k, t, id);
      }
      SameTables(Replay(tables, log[k..]), tables);
    }
  }
}
