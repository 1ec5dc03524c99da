/** The change logs the operations write: what they name, and exactly when they are the difference between two
    states of a table. */
module OvsdbChanges {
  import opened Basics
  import opened OvsdbValues
  import opened OvsdbLog
  import opened OvsdbStore

  function ExtractUuid(row: Row): string
  {
    if "_uuid" in row && row["_uuid"].Arr? && |row["_uuid"].elems| == 2 then StrOf(row["_uuid"].elems[1]) else ""
  }

  /** The uuid a row is logged under: the string in second place of a pair in its uuid column, blank for any other
      row. */
  lemma {:induction false} LoggedUnder(row: Row, tag: Value, id: string)
    ensures "_uuid" in row && row["_uuid"] == Arr([tag, Str(id)]) ==> ExtractUuid(row) == id
    ensures (forall x, y :: "_uuid" in row ==> row["_uuid"] != Arr([x, Str(y)])) ==> ExtractUuid(row) == ""
  {
    if "_uuid" in row && row["_uuid"].Arr? && |row["_uuid"].elems| == 2 && row["_uuid"].elems[1].Str? {
      assert row["_uuid"] == Arr([row["_uuid"].elems[0], Str(row["_uuid"].elems[1].s)]);
    }
  }

  lemma FormedUuid(id: string, row: Row)
    requires RowFormed(id, row)
    ensures ExtractUuid(row) == id && id != ""
  {
  }

  /** The log of an update or mutate: the old copies, each beside the row now found under the uuid it carries. A
      copy without a uuid is passed over. */
  function UpdateLog(table: string, found: seq<Row>, after: Rows): seq<Change>
  {
    if found == [] then []
    else
      var init, last := UpdateLog(table, found[..|found| - 1], after), found[|found| - 1];
      var uuid := ExtractUuid(last);
      if uuid == "" then init else init + [Updated(table, uuid, last, RowAt(after, uuid))]
  }

  /** The log of a delete: the old copies under the uuids they carry. */
  function DeleteLog(table: string, found: seq<Row>): seq<Change>
  {
    if found == [] then []
    else
      var last := found[|found| - 1];
      DeleteLog(table, found[..|found| - 1]) + [Deleted(table, ExtractUuid(last), last)]
  }

  // ---- Exactly when a log is the difference -------------------------------------------------------------

  /** Some copy on the list carries this uuid. */
  predicate NamedBy(found: seq<Row>, u: string)
  {
    exists i :: 0 <= i < |found| && ExtractUuid(found[i]) == u
  }

  lemma NamedMore(found: seq<Row>, u: string)
    requires found != []
    ensures NamedBy(found, u) <==> NamedBy(found[..|found| - 1], u) || ExtractUuid(found[|found| - 1]) == u
  {
    hide ExtractUuid;
    var init := found[..|found| - 1];
    if i :| 0 <= i < |found| && ExtractUuid(found[i]) == u {
      assert i < |init| ==> init[i] == found[i];
    }
    if i :| 0 <= i < |init| && ExtractUuid(init[i]) == u {
      assert found[i] == init[i];
    }
  }

  lemma {:induction false} WriteMore(log: seq<Change>, ch: Change, t: string, u: string)
    ensures LastWrite(log + [ch], t, u) ==
            if ch.table == t && ch.uuid == u then Some(Written(ch)) else LastWrite(log, t, u)
  {
    assert (log + [ch])[..|log|] == log;
  }

  lemma {:induction false} UpdateLogWrites(table: string, found: seq<Row>, after: Rows, t: string, u: string)
    ensures LastWrite(UpdateLog(table, found, after), t, u) ==
            if t == table && u != "" && NamedBy(found, u) then Some(Some(RowAt(after, u))) else None
  {
    if found != [] {
      hide ExtractUuid, LastWrite, NamedBy, RowAt;
      var init, last := found[..|found| - 1], found[|found| - 1];
      UpdateLogWrites(table, init, after, t, u);
      NamedMore(found, u);
      var uuid := ExtractUuid(last);
      WriteMore(UpdateLog(table, init, after), Updated(table, uuid, last, RowAt(after, uuid)), t, u);
    }
  }

  lemma {:induction false} DeleteLogWrites(table: string, found: seq<Row>, t: string, u: string)
    ensures LastWrite(DeleteLog(table, found), t, u) == if t == table && NamedBy(found, u) then Some(None) else None
  {
    if found != [] {
      hide ExtractUuid, LastWrite, NamedBy;
      var init, last := found[..|found| - 1], found[|found| - 1];
      DeleteLogWrites(table, init, t, u);
      NamedMore(found, u);
      WriteMore(DeleteLog(table, init), Deleted(table, ExtractUuid(last), last), t, u);
    }
  }

  /** The copies name rows that are there, and every row that changed is named. */
  ghost predicate UpdatePinpoints(before: Rows, after: Rows, found: seq<Row>)
  {
    && (forall u :: NamedBy(found, u) && u != "" ==> u in after)
    && (forall u :: u in before && u in after && after[u] != before[u] ==> u != "" && NamedBy(found, u))
  }

  lemma {:induction false} UpdateCell(tables: Tables, table: string, found: seq<Row>, after: Rows, t: string, u: string)
    requires table in tables && t in tables
    ensures Cell(Replay(tables, UpdateLog(table, found, after)), t, u) ==
            if t == table && u != "" && NamedBy(found, u) then Some(RowAt(after, u)) else Cell(tables, t, u)
  {
    hide Replay, LastWrite, NamedBy, UpdateLog, RowAt;
    ReplayCell(tables, UpdateLog(table, found, after), t, u);
    UpdateLogWrites(table, found, after, t, u);
  }

  /** The log of an update is the difference if and only if it pinpoints the rows that changed. */
  lemma {:induction false} UpdateReplaysIff(tables: Tables, table: string, found: seq<Row>, after: Rows)
    requires table in tables && after.Keys == tables[table].Keys
    ensures Replay(tables, UpdateLog(table, found, after)) == tables[table := after] <==>
            UpdatePinpoints(tables[table], after, found)
  {
    hide Replay, NamedBy, UpdateLog;
    var now, want := Replay(tables, UpdateLog(table, found, after)), tables[table := after];
    ReplayTables(tables, UpdateLog(table, found, after));
    forall t, u | t in tables
      ensures Cell(now, t, u) ==
              if t == table && u != "" && NamedBy(found, u) then Some(RowAt(after, u)) else Cell(tables, t, u)
    {
      UpdateCell(tables, table, found, after, t, u);
    }
    if UpdatePinpoints(tables[table], after, found) {
      forall t, u | t in now
        ensures Cell(now, t, u) == Cell(want, t, u)
      {
      }
      SameTables(now, want);
    } else {
      if u :| NamedBy(found, u) && u != "" && u !in after {
        assert Cell(now, table, u) != Cell(want, table, u);
      } else {
        var u :| u in after && after[u] != tables[table][u] && !(u != "" && NamedBy(found, u));
        assert Cell(now, table, u) != Cell(want, table, u);
      }
    }
  }

  lemma {:induction false} DeleteCell(tables: Tables, table: string, found: seq<Row>, t: string, u: string)
    requires table in tables && t in tables
    ensures Cell(Replay(tables, DeleteLog(table, found)), t, u) ==
            if t == table && NamedBy(found, u) then None else Cell(tables, t, u)
  {
    hide Replay, LastWrite, NamedBy, DeleteLog;
    ReplayCell(tables, DeleteLog(table, found), t, u);
    DeleteLogWrites(table, found, t, u);
  }

  /** The copies name exactly the rows that went. */
  ghost predicate DeletePinpoints(before: Rows, gone: set<string>, found: seq<Row>)
  {
    forall u :: u in before ==> (u in gone <==> NamedBy(found, u))
  }

  /** The log of a delete is the difference if and only if it pinpoints the rows that went. */
  lemma {:induction false} DeleteReplaysIff(tables: Tables, table: string, found: seq<Row>, gone: set<string>)
    requires table in tables
    ensures Replay(tables, DeleteLog(table, found)) == tables[table := tables[table] - gone] <==>
            DeletePinpoints(tables[table], gone, found)
  {
    hide Replay, NamedBy, DeleteLog;
    var now, want := Replay(tables, DeleteLog(table, found)), tables[table := tables[table] - gone];
    ReplayTables(tables, DeleteLog(table, found));
    forall t, u | t in tables
      ensures Cell(now, t, u) == if t == table && NamedBy(found, u) then None else Cell(tables, t, u)
    {
      DeleteCell(tables, table, found, t, u);
    }
    if DeletePinpoints(tables[table], gone, found) {
      forall t, u | t in now
        ensures Cell(now, t, u) == Cell(want, t, u)
      {
      }
      SameTables(now, want);
    } else {
      var u :| u in tables[table] && !(u in gone <==> NamedBy(found, u));
      assert Cell(now, table, u) != Cell(want, table, u);
    }
  }

  // ---- Well-formed tables -------------------------------------------------------------------------------

  /** Rows of which the places in `done` have been brought up to date. */
  function Mixed(before: Rows, after: Rows, done: seq<string>): Rows
  {
    map id | id in before :: if id in done && id in after then after[id] else before[id]
  }

  lemma MixOne(tables: Tables, table: string, before: Rows, after: Rows, ids: seq<string>, k: nat)
    requires table in tables && tables[table] == before && before.Keys == after.Keys && k < |ids|
    requires forall i, j :: 0 <= i < j < |ids| ==> ids[i] != ids[j]
    requires ids[k] in before
    ensures
      var ch := Updated(table, ids[k], before[ids[k]], after[ids[k]]);
      && Says(tables[table := Mixed(before, after, ids[..k])], ch)
      && Patch(tables[table := Mixed(before, after, ids[..k])], ch) == tables[table := Mixed(before, after, ids[..k + 1])]
  {
    assert ids[k] !in ids[..k];
    assert ids[..k + 1] == ids[..k] + [ids[k]];
    assert Mixed(before, after, ids[..k])[ids[k] := after[ids[k]]] == Mixed(before, after, ids[..k + 1]);
  }

  /** On a well-formed store the log of an update is the difference, and truthful about what it replaces. */
  lemma {:induction false} UpdateTruthful(
    tables: Tables, table: string, ids: seq<string>, found: seq<Row>, after: Rows, k: nat)
    requires WellFormed(tables) && table in tables && tables[table].Keys == after.Keys && k <= |ids|
    requires Shows(tables[table], ids, found) && forall i, j :: 0 <= i < j < |ids| ==> ids[i] != ids[j]
    ensures
      var log := UpdateLog(table, found[..k], after);
      Replay(tables, log) == tables[table := Mixed(tables[table], after, ids[..k])] && Truthful(tables, log)
    decreases k
  {
    var before := tables[table];
    if k == 0 {
      assert Mixed(before, after, ids[..0]) == before;
    } else {
      var j := k - 1;
      UpdateTruthful(tables, table, ids, found, after, j);
      FormedUuid(ids[j], before[ids[j]]);
      assert found[..k][..j] == found[..j];
      hide Replay, Truthful, WellFormed, Mixed;
      MixOne(tables, table, before, after, ids, j);
      ReplayOne(tables, UpdateLog(table, found[..j], after), Updated(table, ids[j], before[ids[j]], after[ids[j]]));
    }
  }

  function Ids(ids: seq<string>): set<string>
  {
    set id | id in ids
  }

  lemma DropOne(tables: Tables, table: string, rows: Rows, ids: seq<string>, k: nat)
    requires table in tables && tables[table] == rows && k < |ids| && ids[k] in rows
    requires forall i, j :: 0 <= i < j < |ids| ==> ids[i] != ids[j]
    ensures
      var ch, done := Deleted(table, ids[k], rows[ids[k]]), Ids(ids[..k]);
      && Says(tables[table := rows - done], ch)
      && Patch(tables[table := rows - done], ch) == tables[table := rows - Ids(ids[..k + 1])]
  {
    assert ids[k] !in ids[..k];
    assert ids[..k + 1] == ids[..k] + [ids[k]];
    var done := Ids(ids[..k]);
    assert rows - done - {ids[k]} == rows - Ids(ids[..k + 1]);
  }

  lemma {:induction false} DeleteTruthful(tables: Tables, table: string, ids: seq<string>, found: seq<Row>, k: nat)
    requires WellFormed(tables) && table in tables && k <= |ids|
    requires Shows(tables[table], ids, found) && forall i, j :: 0 <= i < j < |ids| ==> ids[i] != ids[j]
    ensures
      var log := DeleteLog(table, found[..k]);
      Replay(tables, log) == tables[table := tables[table] - Ids(ids[..k])] && Truthful(tables, log)
    decreases k
  {
    var rows := tables[table];
    if k == 0 {
      assert rows - Ids(ids[..0]) == rows;
    } else {
      var j := k - 1;
      DeleteTruthful(tables, table, ids, found, j);
      FormedUuid(ids[j], rows[ids[j]]);
      assert found[..k][..j] == found[..j];
      hide Replay, Truthful, WellFormed;
      DropOne(tables, table, rows, ids, j);
      ReplayOne(tables, DeleteLog(table, found[..j]), Deleted(table, ids[j], rows[ids[j]]));
    }
  }

  // ---- The loops that write the logs --------------------------------------------------------------------

  /** The log of the rows an update or mutate touched: old copies beside the rows as they are now. */
  method UpdateChanges(store: Store, table: string, oldRows: seq<Row>) returns (changes: seq<Change>)
    requires table in store.tables
    ensures changes == UpdateLog(table, oldRows, store.tables[table])
  {
    hide ExtractUuid;
    changes := [];
    var i := 0;
    while i < |oldRows|
      invariant 0 <= i <= |oldRows|
      invariant changes == UpdateLog(table, oldRows[..i], store.tables[table])
    {
      assert oldRows[..i + 1][..i] == oldRows[..i];
      var uuid := ExtractUuid(oldRows[i]);
      if uuid != "" {
        var newRow := store.GetRow(table, uuid);
        changes := changes + [Updated(table, uuid, oldRows[i], if newRow.Some? then newRow.value else map[])];
      }
      i := i + 1;
    }
    assert oldRows[..|oldRows|] == oldRows;
  }

  /** The log of the rows a delete removed. */
  method DeleteChanges(table: string, rows: seq<Row>) returns (changes: seq<Change>)
    ensures changes == DeleteLog(table, rows)
  {
    hide ExtractUuid;
    changes := [];
    var i := 0;
    while i < |rows|
      invariant 0 <= i <= |rows|
      invariant changes == DeleteLog(table, rows[..i])
    {
      assert rows[..i + 1][..i] == rows[..i];
      var uuid := ExtractUuid(rows[i]);
      changes := changes + [Deleted(table, uuid, rows[i])];
      i := i + 1;
    }
    assert rows[..|rows|] == rows;
  }
}
