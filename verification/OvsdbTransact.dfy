/** OVSDB transactions: what a list of operations means, and the engine that applies them in place, logs
    every row change and rolls back when one of them fails. */
module OvsdbTransact {
  import opened Basics
  import opened OvsdbValues
  import opened OvsdbLog
  import opened OvsdbStore
  import opened OvsdbChanges

  datatype TransactOp = TransactOp(
    op: string, table: string, row: Row, conds: seq<Value>, uuidName: string,
    mutations: seq<Value>, columns: seq<string>)

  datatype OpResult =
    | InsertResult(uuid: string) | RowsResult(rows: seq<Row>) | CountResult(count: nat)
    | EmptyResult | ErrorResult(why: Reason) | NullResult

  /** A transaction under way: the tables, the names given so far and the number of ids issued. */
  datatype Tx = Tx(tables: Tables, named: map<string, string>, issued: nat)

  datatype Env = Env(text: Text, newId: nat -> string)

  // ---- What a transaction means ------------------------------------------------------------------

  /** The operation with the names known so far filled in; mutations are left as they are. */
  function Resolved(op: TransactOp, named: map<string, string>): TransactOp
  {
    op.(row := ResolveRow(op.row, named), conds := ResolveWhere(op.conds, named))
  }

  /** The rows an operation selects. */
  function Targets(env: Env, tables: Tables, op: TransactOp): set<string>
    requires op.table in tables
  {
    Matched(env.text, tables[op.table], op.conds)
  }

  predicate Known(op: string)
  {
    op == "insert" || op == "select" || op == "update" || op == "delete" || op == "mutate"
  }

  /** Whether an operation, names filled in, goes through. */
  predicate Succeeds(env: Env, tables: Tables, op: TransactOp)
  {
    && Known(op.op) && op.table in tables
    && (op.op == "mutate" ==> AllMutate(env.text, tables[op.table], Targets(env, tables, op), op.mutations))
  }

  /** The rows of the operation's table after an operation that goes through. */
  function RowsAfter(env: Env, tables: Tables, op: TransactOp, id: string): Rows
    requires op.table in tables
  {
    var rows := tables[op.table];
    if op.op == "insert" then rows[id := op.row["_uuid" := UuidRef(id)]]
    else if op.op == "update" then UpdatedRows(rows, Targets(env, tables, op), op.row)
    else if op.op == "delete" then rows - Targets(env, tables, op)
    else if op.op == "mutate" then MutatedRows(env.text, rows, Targets(env, tables, op), op.mutations)
    else rows
  }

  /** One operation of a transaction, or nothing if it fails. */
  function Exec(env: Env, tx: Tx, op: TransactOp): Option<Tx>
  {
    var op := Resolved(op, tx.named);
    if !Succeeds(env, tx.tables, op) then None
    else
      var id := env.newId(tx.issued);
      var inserts := op.op == "insert";
      Some(Tx(tx.tables[op.table := RowsAfter(env, tx.tables, op, id)],
              if inserts && op.uuidName != "" then tx.named[op.uuidName := id] else tx.named,
              if inserts then tx.issued + 1 else tx.issued))
  }

  function ExecAll(env: Env, tx: Tx, ops: seq<TransactOp>): Option<Tx>
  {
    if ops == [] then Some(tx)
    else
      var init := ExecAll(env, tx, ops[..|ops| - 1]);
      if init.None? then None else Exec(env, init.value, ops[|ops| - 1])
  }

  // ---- Well-formed stores --------------------------------------------------------------------------

  /** The operation does not write the uuid column of an existing row: taking elements off it or dividing it
      has no effect, as it is neither a set nor a number. */
  predicate KeepsUuid(op: TransactOp)
  {
    && (op.op == "update" ==> "_uuid" !in op.row)
    && (op.op == "mutate" ==> forall m :: m in op.mutations ==> !GrowsUuid(m))
  }

  /** An update keeps a table well-formed if and only if it leaves the uuid column alone, or writes into it
      what is there already. */
  lemma {:induction false} UpdateFormedIff(rows: Rows, ids: set<string>, values: Row)
    requires forall id :: id in rows ==> RowFormed(id, rows[id])
    ensures
      var rows' := UpdatedRows(rows, ids, values);
      (forall id :: id in rows' ==> RowFormed(id, rows'[id])) <==>
      ("_uuid" !in values || forall id :: id in rows && id in ids ==> values["_uuid"] == UuidRef(id))
  {
    hide UuidRef;
    var rows' := UpdatedRows(rows, ids, values);
    if forall id :: id in rows' ==> RowFormed(id, rows'[id]) {
      forall id | id in rows && id in ids && "_uuid" in values
        ensures values["_uuid"] == UuidRef(id)
      {
        assert RowFormed(id, rows'[id]);
      }
    } else {
      var id :| id in rows' && !RowFormed(id, rows'[id]);
      assert RowFormed(id, rows[id]);
    }
  }

  lemma {:induction false} MutatedFormedIff(text: Text, row: Row, id: string, ms: seq<Value>)
    requires RowFormed(id, row)
    ensures (forall m :: m in ms ==> !GrowsUuid(m)) ==> RowFormed(id, MutateAll(text, row, ms).row)
    ensures MutateAll(text, row, ms).Mutated? ==>
              (RowFormed(id, MutateAll(text, row, ms).row) <==> forall m :: m in ms ==> !GrowsUuid(m))
  {
    hide MutateAll, GrowsUuid, UuidRef;
    UuidKeptIff(text, row, ms, id);
  }

  /** A mutate that goes through keeps a table well-formed if and only if it selects nothing or adds nothing to
      the uuid column. */
  lemma {:induction false} MutateFormedIff(text: Text, rows: Rows, ids: set<string>, ms: seq<Value>)
    requires forall id :: id in rows ==> RowFormed(id, rows[id])
    requires AllMutate(text, rows, ids, ms)
    ensures
      var rows' := MutatedRows(text, rows, ids, ms);
      (forall id :: id in rows' ==> RowFormed(id, rows'[id])) <==>
      ((forall m :: m in ms ==> !GrowsUuid(m)) || forall id :: id in rows ==> id !in ids)
  {
    hide MutateAll, GrowsUuid, RowFormed;
    var rows' := MutatedRows(text, rows, ids, ms);
    forall id | id in rows && id in ids
      ensures RowFormed(id, rows'[id]) <==> forall m :: m in ms ==> !GrowsUuid(m)
    {
      MutatedFormedIff(text, rows[id], id, ms);
    }
    if forall id :: id in rows' ==> RowFormed(id, rows'[id]) {
      if id :| id in rows && id in ids {
        assert RowFormed(id, rows'[id]);
      }
    }
  }

  lemma {:induction false} RowsAfterFormed(env: Env, tables: Tables, op: TransactOp, id: string)
    requires WellFormed(tables) && op.table in tables && KeepsUuid(op) && id != ""
    ensures forall r :: r in RowsAfter(env, tables, op, id) ==> RowFormed(r, RowsAfter(env, tables, op, id)[r])
  {
    hide UuidRef, MatchWhere, MutateAll, GrowsUuid;
    var rows := tables[op.table];
    assert forall r :: r in rows ==> RowFormed(r, rows[r]);
    if op.op == "update" {
      UpdateFormedIff(rows, Targets(env, tables, op), op.row);
    } else if op.op == "mutate" {
      forall r | r in rows
        ensures RowFormed(r, MutateAll(env.text, rows[r], op.mutations).row)
      {
        MutatedFormedIff(env.text, rows[r], r, op.mutations);
      }
    }
  }

  /** An operation that does not write uuids takes a well-formed store to a well-formed store. */
  lemma {:induction false} ExecFormed(env: Env, tx: Tx, op: TransactOp)
    requires WellFormed(tx.tables) && KeepsUuid(op) && (forall n :: env.newId(n) != "") && Exec(env, tx, op).Some?
    ensures WellFormed(Exec(env, tx, op).value.tables)
  {
    hide RowsAfter, AllMutate, Targets, Resolve;
    var op' := Resolved(op, tx.named);
    RowsAfterFormed(env, tx.tables, op', env.newId(tx.issued));
  }

  // ---- Names ---------------------------------------------------------------------------------------

  /** How many ids the first operations use up. */
  function Inserts(ops: seq<TransactOp>): nat
  {
    if ops == [] then 0 else Inserts(ops[..|ops| - 1]) + if ops[|ops| - 1].op == "insert" then 1 else 0
  }

  predicate GivesName(op: TransactOp, name: string)
  {
    op.op == "insert" && op.uuidName == name && name != ""
  }

  lemma {:induction false} IssuedCount(env: Env, tx: Tx, ops: seq<TransactOp>)
    requires ExecAll(env, tx, ops).Some?
    ensures ExecAll(env, tx, ops).value.issued == tx.issued + Inserts(ops)
  {
    hide Succeeds, RowsAfter, Resolve;
    if ops != [] {
      IssuedCount(env, tx, ops[..|ops| - 1]);
    }
  }

  /** The latest of the first `j` operations that is an insert giving the name. */
  function LatestInsert(ops: seq<TransactOp>, j: nat, name: string): (i: Option<nat>)
    requires j <= |ops|
    ensures i.Some? ==> i.value < j && GivesName(ops[i.value], name)
    ensures forall k :: 0 <= k < j && (i.None? || i.value < k) ==> !GivesName(ops[k], name)
  {
    if j == 0 then None else if GivesName(ops[j - 1], name) then Some(j - 1) else LatestInsert(ops, j - 1, name)
  }

  /** Names are backward references: after the first `j` operations a name stands for the uuid of the latest
      insert among them that gave it, and for nothing if none did. */
  lemma {:induction false} NameMeans(env: Env, tables: Tables, issued: nat, ops: seq<TransactOp>, j: nat, name: string)
    requires j <= |ops| && ExecAll(env, Tx(tables, map[], issued), ops[..j]).Some?
    ensures
      var named, i := ExecAll(env, Tx(tables, map[], issued), ops[..j]).value.named, LatestInsert(ops, j, name);
      && (name in named <==> i.Some?)
      && (i.Some? ==> named[name] == env.newId(issued + Inserts(ops[..i.value])))
    decreases j
  {
    hide Succeeds, RowsAfter, Resolve;
    if j > 0 {
      var tx := Tx(tables, map[], issued);
      assert ops[..j][..j - 1] == ops[..j - 1];
      NameMeans(env, tables, issued, ops, j - 1, name);
      IssuedCount(env, tx, ops[..j - 1]);
    }
  }

  // ---- The engine ----------------------------------------------------------------------------------

  /** How one operation ended. */
  datatype Report = Done(result: OpResult) | Refusal(why: Reason) | Panic

  ghost function EnvOf(store: Store): Env
  {
    Env(store.text, store.newId)
  }

  /** Whether a result is what the operation should report. */
  ghost predicate Reports(env: Env, tables: Tables, op: TransactOp, id: string, r: OpResult)
    requires op.table in tables
  {
    if op.op == "insert" then r == InsertResult(id)
    else if op.op == "select" then
      exists ids, found :: Selects(env, tables, op, ids, found) && r == RowsResult(Picked(found, op.columns))
    else r == CountResult(|Targets(env, tables, op)|)
  }

  ghost predicate Selects(env: Env, tables: Tables, op: TransactOp, ids: seq<string>, found: seq<Row>)
    requires op.table in tables
  {
    Enumerates(ids, Targets(env, tables, op)) && Shows(tables[op.table], ids, found)
  }

  function Picked(rows: seq<Row>, columns: seq<string>): seq<Row>
  {
    seq(|rows|, i requires 0 <= i < |rows| => FilterColumns(rows[i], columns))
  }

  /** The log the operation should write: an insert logs the row as stored, a select nothing, and the others
      the copies selected beforehand, in some order. */
  ghost predicate Logs(env: Env, tables: Tables, op: TransactOp, id: string, log: seq<Change>)
    requires op.table in tables
  {
    if op.op == "insert" then log == [Inserted(op.table, id, op.row["_uuid" := UuidRef(id)])]
    else if op.op == "select" then log == []
    else
      exists ids, found :: Selects(env, tables, op, ids, found) &&
        log == if op.op == "delete" then DeleteLog(op.table, found)
               else UpdateLog(op.table, found, RowsAfter(env, tables, op, id))
  }

  /** Why an operation may be refused: its kind, then its table, then some row it selects. */
  ghost predicate RefusedFor(env: Env, tables: Tables, op: TransactOp, why: Reason)
  {
    if !Known(op.op) then why == UnknownOperation
    else if op.table !in tables then why == UnknownTable
    else
      && op.op == "mutate"
      && exists id :: id in Targets(env, tables, op) && id in tables[op.table] &&
           RejectedFor(env.text, tables[op.table][id], op.mutations, why)
  }

  /** Some selected row makes the mutations divide by a modulus that truncates to zero. */
  ghost predicate MayPanic(env: Env, tables: Tables, op: TransactOp)
  {
    && op.op == "mutate" && op.table in tables
    && exists id :: id in Targets(env, tables, op) && id in tables[op.table] &&
         MutateAll(env.text, tables[op.table][id], op.mutations).Panicked?
  }

  /** What every operation promises, names filled in: exactly which cases fail and for what reason, the new
      tables, the result and the log when it goes through, and which table alone it may touch. */
  twostate predicate Executed(store: Store, op: TransactOp, how: Report, changes: seq<Change>)
    reads store
  {
    var env, before, id := EnvOf(store), old(store.tables), store.newId(old(store.issued));
    && (how.Done? <==> Succeeds(env, before, op))
    && (how.Done? ==>
          && store.tables == before[op.table := RowsAfter(env, before, op, id)]
          && store.issued == old(store.issued) + (if op.op == "insert" then 1 else 0)
          && Reports(env, before, op, id, how.result)
          && Logs(env, before, op, id, changes))
    && (how.Refusal? ==> RefusedFor(env, before, op, how.why))
    && (how.Panic? ==> MayPanic(env, before, op))
    && (op.table !in before ==> store.tables == before)
    && (op.table in before ==> op.table in store.tables && store.tables == before[op.table := store.tables[op.table]])
  }

  method ExecInsert(store: Store, op: TransactOp) returns (how: Report, changes: seq<Change>)
    requires op.op == "insert"
    modifies store
    ensures Executed(store, op, how, changes)
  {
    hide MatchWhere, MutateAll;
    var id := store.Insert(op.table, op.row);
    if id.None? {
      return Refusal(UnknownTable), [];
    }
    var stored := store.GetRow(op.table, id.value);
    return Done(InsertResult(id.value)), [Inserted(op.table, id.value, stored.value)];
  }

  method ExecSelect(store: Store, op: TransactOp) returns (how: Report)
    requires op.op == "select"
    ensures how.Done? <==> Succeeds(EnvOf(store), store.tables, op)
    ensures how.Done? ==> Reports(EnvOf(store), store.tables, op, "", how.result)
    ensures how.Refusal? ==> RefusedFor(EnvOf(store), store.tables, op, how.why)
    ensures !how.Panic?
  {
    hide MatchWhere, MutateAll;
    ghost var ids;
    var rows;
    rows, ids := store.Select(op.table, op.conds);
    if rows.None? {
      return Refusal(UnknownTable);
    }
    assert Selects(EnvOf(store), store.tables, op, ids, rows.value);
    var picked := PickColumns(rows.value, op.columns);
    return Done(RowsResult(picked));
  }

  method PickColumns(rows: seq<Row>, columns: seq<string>) returns (r: seq<Row>)
    ensures r == Picked(rows, columns)
  {
    hide FilterColumns;
    r := [];
    var i := 0;
    while i < |rows|
      invariant 0 <= i <= |rows|
      invariant r == Picked(rows[..i], columns)
    {
      var row := FilterRow(rows[i], columns);
      r := r + [row];
      i := i + 1;
    }
    assert rows[..|rows|] == rows;
  }

  method ExecUpdate(store: Store, op: TransactOp) returns (how: Report, changes: seq<Change>)
    requires op.op == "update"
    modifies store
    ensures Executed(store, op, how, changes)
  {
    hide MatchWhere, MutateAll, UpdateLog;
    ghost var before := store.tables;
    ghost var ids;
    var oldRows;
    oldRows, ids := store.Select(op.table, op.conds);
    if oldRows.None? {
      return Refusal(UnknownTable), [];
    }
    assert Selects(EnvOf(store), before, op, ids, oldRows.value);
    var count := store.Update(op.table, op.conds, op.row);
    changes := UpdateChanges(store, op.table, oldRows.value);
    return Done(CountResult(count.value)), changes;
  }

  method ExecMutate(store: Store, op: TransactOp) returns (how: Report, changes: seq<Change>)
    requires op.op == "mutate"
    modifies store
    ensures Executed(store, op, how, changes)
  {
    hide MatchWhere, MutateAll, UpdateLog, MayEnd, AllMutate, MutatedRows, RejectedFor;
    ghost var before := store.tables;
    ghost var ids;
    var oldRows;
    oldRows, ids := store.Select(op.table, op.conds);
    if oldRows.None? {
      return Refusal(UnknownTable), [];
    }
    assert Selects(EnvOf(store), before, op, ids, oldRows.value);
    var r := store.Mutate(op.table, op.conds, op.mutations);
    EndMeans(store.text, before[op.table], Targets(EnvOf(store), before, op), op.mutations, r);
    if !r.Counted? {
      return if r.Crashed? then Panic else Refusal(r.why), [];
    }
    changes := UpdateChanges(store, op.table, oldRows.value);
    return Done(CountResult(r.count)), changes;
  }

  method ExecDelete(store: Store, op: TransactOp) returns (how: Report, changes: seq<Change>)
    requires op.op == "delete"
    modifies store
    ensures Executed(store, op, how, changes)
  {
    hide MatchWhere, MutateAll, DeleteLog;
    ghost var before := store.tables;
    ghost var ids;
    var rows;
    rows, ids := store.Select(op.table, op.conds);
    if rows.None? {
      return Refusal(UnknownTable), [];
    }
    assert Selects(EnvOf(store), before, op, ids, rows.value);
    var count := store.Delete(op.table, op.conds);
    changes := DeleteChanges(op.table, rows.value);
    return Done(CountResult(count.value)), changes;
  }

  /** The switch over the kinds of operation. */
  method ExecOne(store: Store, op: TransactOp) returns (how: Report, changes: seq<Change>)
    modifies store
    ensures Executed(store, op, how, changes)
  {
    hide MatchWhere, MutateAll, MutatedRows, UpdatedRows, Matched;
    if op.op == "insert" {
      how, changes := ExecInsert(store, op);
    } else if op.op == "select" {
      how := ExecSelect(store, op);
      changes := [];
    } else if op.op == "update" {
      how, changes := ExecUpdate(store, op);
    } else if op.op == "delete" {
      how, changes := ExecDelete(store, op);
    } else if op.op == "mutate" {
      how, changes := ExecMutate(store, op);
    } else {
      how, changes := Refusal(UnknownOperation), [];
    }
  }

  /** One slot per operation: empty before the failing one, null after it. */
  function ErrorResults(total: nat, index: nat, why: Reason): seq<OpResult>
  {
    seq(total, i => if i < index then EmptyResult else if i == index then ErrorResult(why) else NullResult)
  }

  /** Every snapshotted table back to its snapshot. */
  method Rollback(store: Store, snapshots: Tables)
    modifies store`tables
    ensures store.tables.Keys == old(store.tables).Keys
    ensures forall t :: t in store.tables ==>
              store.tables[t] == if t in snapshots then snapshots[t] else old(store.tables)[t]
  {
    var todo := snapshots.Keys;
    while todo != {}
      invariant todo <= snapshots.Keys
      invariant store.tables.Keys == old(store.tables).Keys
      invariant forall t :: t in store.tables ==>
                  store.tables[t] == if t in snapshots && t !in todo then snapshots[t] else old(store.tables)[t]
    {
      var t :| t in todo;
      if t in store.tables {
        store.tables := store.tables[t := snapshots[t]];
      }
      todo := todo - {t};
    }
  }

  /** A copy of every table some operation names. */
  method Snapshot(store: Store, ops: seq<TransactOp>) returns (snapshots: Tables)
    ensures forall t :: t in snapshots ==> t in store.tables && snapshots[t] == store.tables[t]
    ensures forall i :: 0 <= i < |ops| && ops[i].table in store.tables ==> ops[i].table in snapshots
  {
    snapshots := map[];
    var i := 0;
    while i < |ops|
      invariant 0 <= i <= |ops|
      invariant forall t :: t in snapshots ==> t in store.tables && snapshots[t] == store.tables[t]
      invariant forall j :: 0 <= j < i && ops[j].table in store.tables ==> ops[j].table in snapshots
    {
      if ops[i].table !in snapshots {
        var rows := store.AllRows(ops[i].table);
        if rows.Some? {
          snapshots := snapshots[ops[i].table := rows.value];
        }
      }
      i := i + 1;
    }
  }

  datatype Outcome =
    | Committed(results: seq<OpResult>)
    | Failed(index: nat, why: Reason, results: seq<OpResult>)
    | Crash

  /** Operation `i` is the first that fails. */
  predicate FailsAt(env: Env, tx: Tx, ops: seq<TransactOp>, i: nat)
  {
    i < |ops| && ExecAll(env, tx, ops[..i]).Some? && ExecAll(env, tx, ops[..i + 1]).None?
  }

  /** The result of operation `i` is what it should report on the state it ran on. */
  ghost predicate ReportsAt(env: Env, tx: Tx, ops: seq<TransactOp>, i: nat, r: OpResult)
    requires i < |ops|
  {
    var now := ExecAll(env, tx, ops[..i]);
    now.Some? && ops[i].table in now.value.tables &&
    Reports(env, now.value.tables, Resolved(ops[i], now.value.named), env.newId(now.value.issued), r)
  }

  /** One more operation: what it did to the store is what it means in the transaction. */
  lemma {:induction false} ExecMore(env: Env, tx: Tx, ops: seq<TransactOp>, i: nat)
    requires i < |ops| && ExecAll(env, tx, ops[..i]).Some?
    ensures ExecAll(env, tx, ops[..i + 1]) == Exec(env, ExecAll(env, tx, ops[..i]).value, ops[i])
  {
    hide Exec;
    assert ops[..i + 1][..i] == ops[..i];
  }

  lemma ExecNeedsSuccess(env: Env, tx: Tx, op: TransactOp)
    ensures Exec(env, tx, op).Some? <==> Succeeds(env, tx.tables, Resolved(op, tx.named))
  {
  }

  /** Logs one after the other. */
  function Concat(logs: seq<seq<Change>>): seq<Change>
  {
    if logs == [] then [] else Concat(logs[..|logs| - 1]) + logs[|logs| - 1]
  }

  lemma ConcatMore(logs: seq<seq<Change>>, log: seq<Change>)
    ensures Concat(logs + [log]) == Concat(logs) + log
  {
    assert (logs + [log])[..|logs|] == logs;
  }

  /** The log of operation `i` is what it should write on the state it ran on. */
  ghost predicate LogsAt(env: Env, tx: Tx, ops: seq<TransactOp>, i: nat, log: seq<Change>)
    requires i < |ops|
  {
    var now := ExecAll(env, tx, ops[..i]);
    now.Some? && ops[i].table in now.value.tables &&
    Logs(env, now.value.tables, Resolved(ops[i], now.value.named), env.newId(now.value.issued), log)
  }

  /** After `i` operations the transaction stands at `now`, and every result and every log so far is proper. */
  ghost predicate Underway(
    env: Env, tx: Tx, ops: seq<TransactOp>, i: nat, now: Tx, results: seq<OpResult>, logs: seq<seq<Change>>)
  {
    && i <= |ops| && |results| == i && |logs| == i
    && ExecAll(env, tx, ops[..i]) == Some(now)
    && (forall j :: 0 <= j < i ==> ReportsAt(env, tx, ops, j, results[j]))
    && (forall j :: 0 <= j < i ==> LogsAt(env, tx, ops, j, logs[j]))
  }

  lemma {:induction false} UnderwayMore(
    env: Env, tx: Tx, ops: seq<TransactOp>, i: nat, now: Tx, results: seq<OpResult>, logs: seq<seq<Change>>,
    result: OpResult, log: seq<Change>)
    requires i < |ops| && Underway(env, tx, ops, i, now, results, logs) && Exec(env, now, ops[i]).Some?
    requires ReportsAt(env, tx, ops, i, result) && LogsAt(env, tx, ops, i, log)
    ensures Underway(env, tx, ops, i + 1, Exec(env, now, ops[i]).value, results + [result], logs + [log])
  {
    hide Exec, ReportsAt, LogsAt, ExecAll;
    ExecMore(env, tx, ops, i);
  }

  /** The operation with names filled in, on the state it runs on. */
  ghost predicate PanicsOp(env: Env, tx: Tx, ops: seq<TransactOp>, i: nat)
    requires i < |ops|
  {
    var now := ExecAll(env, tx, ops[..i]);
    now.Some? && MayPanic(env, now.value.tables, Resolved(ops[i], now.value.named))
  }

  ghost predicate RefusedOp(env: Env, tx: Tx, ops: seq<TransactOp>, i: nat, why: Reason)
    requires i < |ops|
  {
    var now := ExecAll(env, tx, ops[..i]);
    now.Some? && RefusedFor(env, now.value.tables, Resolved(ops[i], now.value.named), why)
  }

  /** One round of the transaction loop: fill in names, execute, record the result, the changes and, for a
      named insert, the name. */
  method Advance(
    store: Store, ops: seq<TransactOp>, i: nat, named: map<string, string>,
    results: seq<OpResult>, changes: seq<Change>, ghost tx: Tx, ghost logs: seq<seq<Change>>)
    returns (
      how: Report, named': map<string, string>, results': seq<OpResult>, changes': seq<Change>,
      ghost logs': seq<seq<Change>>)
    requires i < |ops| && changes == Concat(logs)
    requires Underway(EnvOf(store), tx, ops, i, Tx(store.tables, named, store.issued), results, logs)
    modifies store
    ensures how.Done? ==>
              && Underway(EnvOf(store), tx, ops, i + 1, Tx(store.tables, named', store.issued), results', logs')
              && changes' == Concat(logs')
    ensures !how.Done? ==> FailsAt(EnvOf(store), tx, ops, i)
    ensures how.Refusal? ==> RefusedOp(EnvOf(store), tx, ops, i, how.why)
    ensures how.Panic? ==> PanicsOp(EnvOf(store), tx, ops, i)
    ensures ops[i].table !in old(store.tables) ==> store.tables == old(store.tables)
    ensures ops[i].table in old(store.tables) ==>
              ops[i].table in store.tables &&
              store.tables == old(store.tables)[ops[i].table := store.tables[ops[i].table]]
  {
    hide MatchWhere, MutateAll, RowsAfter, Resolve, MayPanic, AllMutate, Targets, RefusedFor, Logs, Reports, Concat;
    named', results', changes', logs' := named, results, changes, logs;
    ghost var env, now := EnvOf(store), Tx(store.tables, named, store.issued);
    var op := ops[i].(row := ResolveRow(ops[i].row, named), conds := ResolveWhere(ops[i].conds, named));
    assert op == Resolved(ops[i], named);
    ExecMore(env, tx, ops, i);
    ExecNeedsSuccess(env, now, ops[i]);
    var more;
    how, more := ExecOne(store, op);
    if !how.Done? {
      return;
    }
    assert ReportsAt(env, tx, ops, i, how.result) && LogsAt(env, tx, ops, i, more);
    UnderwayMore(env, tx, ops, i, now, results, logs, how.result, more);
    ConcatMore(logs, more);
    results' := results + [how.result];
    changes' := changes + more;
    logs' := logs + [more];
    if op.op == "insert" && op.uuidName != "" {
      InsertReports(env, now.tables, op, env.newId(now.issued), how.result);
      named' := named[op.uuidName := how.result.uuid];
    }
  }

  lemma InsertReports(env: Env, tables: Tables, op: TransactOp, id: string, r: OpResult)
    requires op.table in tables && op.op == "insert" && Reports(env, tables, op, id, r)
    ensures r == InsertResult(id)
  {
  }

  /** What a finished transaction promises about the store before and after it. */
  ghost predicate Transacted(
    env: Env, tx: Tx, ops: seq<TransactOp>, tables: Tables, issued: nat, out: Outcome, changes: seq<Change>)
  {
    match out
    case Committed(results) =>
      exists now, logs :: Underway(env, tx, ops, |ops|, now, results, logs) &&
        now.tables == tables && now.issued == issued && changes == Concat(logs)
    case Failed(index, why, results) =>
      && tables == tx.tables && changes == [] && FailsAt(env, tx, ops, index)
      && RefusedOp(env, tx, ops, index, why) && results == ErrorResults(|ops|, index, why)
    case Crash =>
      exists i: nat :: FailsAt(env, tx, ops, i) && PanicsOp(env, tx, ops, i)
  }

  /** OVSDB transact. A transaction that commits leaves exactly the tables its operations mean, and one proper
      result and one proper log per operation. A transaction that fails leaves every table as it was, whichever
      operation failed and however far it got, and says why that operation is refused. */
  method Transact(store: Store, ops: seq<TransactOp>) returns (out: Outcome, changes: seq<Change>)
    modifies store
    ensures Transacted(EnvOf(store), Tx(old(store.tables), map[], old(store.issued)), ops,
                       store.tables, store.issued, out, changes)
  {
    hide Underway, PanicsOp, RefusedOp, FailsAt, ExecAll, ErrorResults, Covered, Concat;
    ghost var tx := Tx(store.tables, map[], store.issued);
    var named: map<string, string> := map[];
    var results: seq<OpResult> := [];
    ghost var logs: seq<seq<Change>> := [];
    changes := [];
    var snapshots := Snapshot(store, ops);
    StartUnderway(EnvOf(store), tx, ops);
    StartCovered(tx.tables, snapshots);
    var i := 0;
    while i < |ops|
      invariant 0 <= i <= |ops|
      invariant Underway(EnvOf(store), tx, ops, i, Tx(store.tables, named, store.issued), results, logs)
      invariant changes == Concat(logs)
      invariant Covered(tx.tables, store.tables, snapshots)
    {
      ghost var now := store.tables;
      var how;
      how, named, results, changes, logs := Advance(store, ops, i, named, results, changes, tx, logs);
      CoveredMore(tx.tables, now, store.tables, snapshots, ops[i].table);
      if how.Panic? {
        return Crash, [];
      }
      if !how.Done? {
        ghost var partial := store.tables;
        Rollback(store, snapshots);
        CoveredRestores(tx.tables, partial, store.tables, snapshots);
        return Failed(i, how.why, ErrorResults(|ops|, i, how.why)), [];
      }
      i := i + 1;
    }
    assert Underway(EnvOf(store), tx, ops, |ops|, Tx(store.tables, named, store.issued), results, logs);
    return Committed(results), changes;
  }

  /** Whatever differs from the tables at the start is in a table that was snapshotted then. */
  ghost predicate Covered(before: Tables, now: Tables, snapshots: Tables)
  {
    && now.Keys == before.Keys
    && (forall t :: t in snapshots ==> t in before && snapshots[t] == before[t])
    && (forall t :: t in before && t !in snapshots ==> now[t] == before[t])
  }

  lemma StartCovered(before: Tables, snapshots: Tables)
    requires forall t :: t in snapshots ==> t in before && snapshots[t] == before[t]
    ensures Covered(before, before, snapshots)
  {
  }

  lemma CoveredMore(before: Tables, now: Tables, after: Tables, snapshots: Tables, table: string)
    requires Covered(before, now, snapshots) && (table in before ==> table in snapshots)
    requires if table in now then table in after && after == now[table := after[table]] else after == now
    ensures Covered(before, after, snapshots)
  {
  }

  lemma CoveredRestores(before: Tables, partial: Tables, restored: Tables, snapshots: Tables)
    requires Covered(before, partial, snapshots) && restored.Keys == partial.Keys
    requires forall t :: t in restored ==> restored[t] == if t in snapshots then snapshots[t] else partial[t]
    ensures restored == before
  {
  }

  lemma StartUnderway(env: Env, tx: Tx, ops: seq<TransactOp>)
    ensures Underway(env, tx, ops, 0, tx, [], []) && Concat([]) == []
  {
    assert ops[..0] == [];
  }
}
