/** What the outcome of a transaction means: atomicity, crashes, the change log as the state difference, and
    named references, over whole transactions. */
module OvsdbOutcomes {
  import opened Basics
  import opened OvsdbValues
  import opened OvsdbLog
  import opened OvsdbStore
  import opened OvsdbChanges
  import opened OvsdbTransact

  lemma {:induction false} PrefixSucceeds(env: Env, tx: Tx, ops: seq<TransactOp>, i: nat)
    requires i <= |ops| && ExecAll(env, tx, ops).Some?
    ensures ExecAll(env, tx, ops[..i]).Some?
    decreases |ops|
  {
    hide Exec;
    if i < |ops| {
      assert ops[..|ops| - 1][..i] == ops[..i];
      PrefixSucceeds(env, tx, ops[..|ops| - 1], i);
    } else {
      assert ops[..i] == ops;
    }
  }

  /** Only one operation is the first that fails, and then the whole list does not go through. */
  lemma {:induction false} FailsOnce(env: Env, tx: Tx, ops: seq<TransactOp>, i: nat, j: nat)
    requires FailsAt(env, tx, ops, i)
    ensures ExecAll(env, tx, ops).None?
    ensures FailsAt(env, tx, ops, j) ==> i == j
  {
    hide ExecAll;
    if ExecAll(env, tx, ops).Some? {
      PrefixSucceeds(env, tx, ops, i + 1);
    }
    if FailsAt(env, tx, ops, j) && i < j {
      assert ops[..j][..i + 1] == ops[..i + 1];
      PrefixSucceeds(env, tx, ops[..j], i + 1);
    }
    if FailsAt(env, tx, ops, j) && j < i {
      assert ops[..i][..j + 1] == ops[..j + 1];
      PrefixSucceeds(env, tx, ops[..i], j + 1);
    }
  }

  /** Transaction atomicity: a transaction in which some operation fails, wherever that is and however many
      rows it had changed, leaves every table as it was, reports no changes and has one result slot per
      operation with the error in the slot of the first failing one, which is refused for that reason. Short of
      a crash, it commits exactly when every operation goes through. */
  lemma {:induction false} Atomicity(
    env: Env, tx: Tx, ops: seq<TransactOp>, tables: Tables, issued: nat, out: Outcome, changes: seq<Change>)
    requires Transacted(env, tx, ops, tables, issued, out, changes)
    ensures !out.Crash? ==> (out.Committed? <==> ExecAll(env, tx, ops).Some?)
    ensures out.Committed? ==> ExecAll(env, tx, ops).value.tables == tables && |out.results| == |ops|
    ensures out.Failed? ==>
              && tables == tx.tables && changes == [] && |out.results| == |ops| && out.index < |ops|
              && (forall i :: 0 <= i < |ops| ==>
                    out.results[i] ==
                    if i < out.index then EmptyResult else if i == out.index then ErrorResult(out.why) else NullResult)
              && ExecAll(env, tx, ops[..out.index]).Some?
              && var now := ExecAll(env, tx, ops[..out.index]).value;
                 RefusedFor(env, now.tables, Resolved(ops[out.index], now.named), out.why)
    ensures out.Crash? ==> ExecAll(env, tx, ops).None?
  {
    hide ExecAll, PanicsOp, RefusedFor, ReportsAt, LogsAt, Concat;
    assert ops[..|ops|] == ops;
    if out.Failed? {
      FailsOnce(env, tx, ops, out.index, out.index);
    }
    if out.Crash? {
      var i: nat :| FailsAt(env, tx, ops, i) && PanicsOp(env, tx, ops, i);
      FailsOnce(env, tx, ops, i, i);
    }
  }

  // ---- Crashes ------------------------------------------------------------------------------------------

  /** Some row selected by operation `i` is rejected, on the state the operation runs on. */
  ghost predicate RejectsOp(env: Env, tx: Tx, ops: seq<TransactOp>, i: nat)
    requires i < |ops|
  {
    exists why :: RefusedOp(env, tx, ops, i, why)
  }

  /** Crashes, exactly: a crash means that at the first failing operation some selected row panics (PanicIff
      says which rows do); if one does and none is refused the transaction crashes, and if none does it fails
      with an error at that operation. Where some rows panic and others are refused, either can happen, as
      CrashOrders says. */
  lemma {:induction false} CrashIff(
    env: Env, tx: Tx, ops: seq<TransactOp>, tables: Tables, issued: nat, out: Outcome, changes: seq<Change>, i: nat)
    requires Transacted(env, tx, ops, tables, issued, out, changes)
    ensures out.Crash? ==> exists j: nat :: FailsAt(env, tx, ops, j) && PanicsOp(env, tx, ops, j)
    ensures FailsAt(env, tx, ops, i) && PanicsOp(env, tx, ops, i) && !RejectsOp(env, tx, ops, i) ==> out.Crash?
    ensures FailsAt(env, tx, ops, i) && !PanicsOp(env, tx, ops, i) ==> out.Failed? && out.index == i
    ensures FailsAt(env, tx, ops, i) && !(PanicsOp(env, tx, ops, i) && RejectsOp(env, tx, ops, i)) ==>
              (out.Crash? <==> PanicsOp(env, tx, ops, i))
  {
    hide PanicsOp, RefusedOp, ReportsAt, LogsAt, Concat;
    if FailsAt(env, tx, ops, i) {
      Atomicity(env, tx, ops, tables, issued, out, changes);
      if out.Failed? {
        FailsOnce(env, tx, ops, i, out.index);
        assert RefusedOp(env, tx, ops, i, out.why);
      } else if out.Committed? {
        FailsOnce(env, tx, ops, i, i);
      } else {
        var j: nat :| FailsAt(env, tx, ops, j) && PanicsOp(env, tx, ops, j);
        FailsOnce(env, tx, ops, i, j);
      }
    }
  }

  /** In particular, without a modulus that truncates to zero no transaction brings the server down. */
  lemma {:induction false} NoCrash(
    env: Env, tx: Tx, ops: seq<TransactOp>, tables: Tables, issued: nat, out: Outcome, changes: seq<Change>)
    requires Transacted(env, tx, ops, tables, issued, out, changes)
    requires forall i :: 0 <= i < |ops| ==> forall m :: m in ops[i].mutations ==> !SmallModulus(m)
    ensures !out.Crash?
  {
    hide ExecAll, ReportsAt, LogsAt, MatchWhere, MutateAll, Resolve, SmallModulus, Concat;
    if out.Crash? {
      var i: nat :| FailsAt(env, tx, ops, i) && PanicsOp(env, tx, ops, i);
      var now := ExecAll(env, tx, ops[..i]).value;
      var op := Resolved(ops[i], now.named);
      var id :| id in Targets(env, now.tables, op) && id in now.tables[op.table] &&
        MutateAll(env.text, now.tables[op.table][id], op.mutations).Panicked?;
      assert forall k :: 0 <= k < |op.mutations| ==> op.mutations[k] in ops[i].mutations;
      PanicIff(env.text, now.tables[op.table][id], op.mutations);
    }
  }

  /** The modulus 0.5 on a numeric column. */
  function HalfModulus(): TransactOp
  {
    TransactOp("mutate", "T", map[], [], "", [Arr([Str("x"), Str("%="), Num(0.5)])], [])
  }

  function OneNumber(issued: nat): Tx
  {
    Tx(map["T" := map["r" := map["_uuid" := UuidRef("r"), "x" := Num(1.0)]]], map[], issued)
  }

  lemma {:induction false} HalfPanics(text: Text)
    ensures MutateAll(text, map["_uuid" := UuidRef("r"), "x" := Num(1.0)], HalfModulus().mutations).Panicked?
  {
    var row: Row, ms := map["_uuid" := UuidRef("r"), "x" := Num(1.0)], HalfModulus().mutations;
    assert ms[..0] == [];
    assert MutateAll(text, row, ms[..0]) == Mutated(row);
  }

  /** Whatever order and whatever ids, a transaction with such an operation brings the server down. */
  lemma {:induction false} HalfModulusCrashes(
    env: Env, issued: nat, tables: Tables, issued': nat, out: Outcome, changes: seq<Change>)
    requires Transacted(env, OneNumber(issued), [HalfModulus()], tables, issued', out, changes)
    ensures out.Crash?
  {
    var tx, ops := OneNumber(issued), [HalfModulus()];
    assert ops[..0] == [] && ops[..1] == ops;
    assert ExecAll(env, tx, ops[..0]) == Some(tx);
    var op := Resolved(ops[0], tx.named);
    assert op.conds == [] && op.mutations == HalfModulus().mutations && op.op == "mutate" && op.table == "T";
    HalfPanics(env.text);
    hide MutateAll, ReportsAt, LogsAt, Concat;
    assert Targets(env, tx.tables, op) == {"r"};
    assert MayPanic(env, tx.tables, op) && !Succeeds(env, tx.tables, op);
    assert FailsAt(env, tx, ops, 0) && PanicsOp(env, tx, ops, 0);
    forall why
      ensures !RefusedOp(env, tx, ops, 0, why)
    {
    }
    hide Transacted, ExecAll;
    CrashIff(env, tx, ops, tables, issued', out, changes, 0);
  }

  // ---- The log is the difference --------------------------------------------------------------------------

  /** Some selected row carries this uuid. */
  predicate Carried(rows: Rows, targets: set<string>, u: string)
  {
    exists r :: r in targets && r in rows && ExtractUuid(rows[r]) == u
  }

  /** The log of the operation, whatever order it was written in, names exactly the rows it has to: every row
      that changed, and no row that is not there. */
  ghost predicate Pinpoints(env: Env, tables: Tables, op: TransactOp, id: string)
    requires op.table in tables
  {
    var rows, targets := tables[op.table], Targets(env, tables, op);
    && (op.op == "update" || op.op == "mutate" ==>
          && (forall u :: Carried(rows, targets, u) && u != "" ==> u in rows)
          && (forall u :: u in rows && RowAt(RowsAfter(env, tables, op, id), u) != rows[u] ==>
                u != "" && Carried(rows, targets, u)))
    && (op.op == "delete" ==> forall u :: u in rows ==> (u in targets <==> Carried(rows, targets, u)))
  }

  lemma {:induction false} CarriedByTargets(rows: Rows, ids: seq<string>, found: seq<Row>, targets: set<string>, u: string)
    requires Enumerates(ids, targets) && Shows(rows, ids, found)
    ensures NamedBy(found, u) <==> Carried(rows, targets, u)
  {
    hide ExtractUuid;
    if i :| 0 <= i < |found| && ExtractUuid(found[i]) == u {
      assert ids[i] in targets && ExtractUuid(rows[ids[i]]) == u;
    }
    if r :| r in targets && r in rows && ExtractUuid(rows[r]) == u {
      var i :| 0 <= i < |ids| && ids[i] == r;
      assert ExtractUuid(found[i]) == u;
    }
  }

  lemma {:induction false} UpdateKeys(env: Env, tables: Tables, op: TransactOp, id: string)
    requires op.table in tables && (op.op == "update" || op.op == "mutate")
    ensures RowsAfter(env, tables, op, id).Keys == tables[op.table].Keys
    ensures Targets(env, tables, op) <= tables[op.table].Keys
  {
    hide MatchWhere, MutateAll;
  }

  /** The log of one operation is the difference between the tables before and after it if and only if it
      pinpoints the rows that changed. */
  lemma {:induction false} LogReplaysIff(env: Env, tables: Tables, op: TransactOp, id: string, log: seq<Change>)
    requires Known(op.op) && op.table in tables && Logs(env, tables, op, id, log)
    ensures Replay(tables, log) == tables[op.table := RowsAfter(env, tables, op, id)] <==> Pinpoints(env, tables, op, id)
  {
    if op.op == "insert" {
      InsertReplays(tables, log[0]);
      assert log == [log[0]];
    } else if op.op == "select" {
      EmptyLog(tables);
      assert tables[op.table := tables[op.table]] == tables;
    } else {
      ChangeReplaysIff(env, tables, op, id, log);
    }
  }

  lemma {:induction false} InsertReplays(tables: Tables, ch: Change)
    ensures Replay(tables, [ch]) == Patch(tables, ch)
    ensures Says(tables, ch) ==> Truthful(tables, [ch])
  {
    EmptyLog(tables);
    ReplayOne(tables, [], ch);
    assert [] + [ch] == [ch];
  }

  lemma {:induction false} ChangeReplaysIff(env: Env, tables: Tables, op: TransactOp, id: string, log: seq<Change>)
    requires op.op == "update" || op.op == "mutate" || op.op == "delete"
    requires op.table in tables && Logs(env, tables, op, id, log)
    ensures Replay(tables, log) == tables[op.table := RowsAfter(env, tables, op, id)] <==> Pinpoints(env, tables, op, id)
  {
    hide MatchWhere, MutateAll, Replay, UpdateLog, DeleteLog, ExtractUuid, NamedBy, Pinpoints, Targets, Enumerates, Shows;
    var rows, targets := tables[op.table], Targets(env, tables, op);
    var ids, found :| Selects(env, tables, op, ids, found) &&
      log == if op.op == "delete" then DeleteLog(op.table, found)
             else UpdateLog(op.table, found, RowsAfter(env, tables, op, id));
    PinpointsFound(env, tables, op, id, ids, found);
    if op.op == "delete" {
      DeleteReplaysIff(tables, op.table, found, targets);
    } else {
      UpdateKeys(env, tables, op, id);
      hide RowsAfter;
      UpdateReplaysIff(tables, op.table, found, RowsAfter(env, tables, op, id));
    }
  }

  /** Pinpointing in terms of the copies that were selected. */
  lemma {:induction false} PinpointsFound(
    env: Env, tables: Tables, op: TransactOp, id: string, ids: seq<string>, found: seq<Row>)
    requires op.table in tables && Selects(env, tables, op, ids, found)
    requires op.op == "update" || op.op == "mutate" || op.op == "delete"
    ensures op.op == "delete" ==>
              (Pinpoints(env, tables, op, id) <==> DeletePinpoints(tables[op.table], Targets(env, tables, op), found))
    ensures op.op != "delete" ==>
              (Pinpoints(env, tables, op, id) <==>
               UpdatePinpoints(tables[op.table], RowsAfter(env, tables, op, id), found))
  {
    hide NamedBy, Carried, RowsAfter, Targets;
    var rows, targets := tables[op.table], Targets(env, tables, op);
    forall u
      ensures NamedBy(found, u) <==> Carried(rows, targets, u)
    {
      CarriedByTargets(rows, ids, found, targets, u);
    }
    hide Selects, Enumerates, Shows;
    if op.op != "delete" {
      UpdateKeys(env, tables, op, id);
    }
  }

  /** On a well-formed store every operation pinpoints what it changes, and its log is truthful. */
  lemma {:induction false} FormedPinpoints(env: Env, tables: Tables, op: TransactOp, id: string)
    requires WellFormed(tables) && op.table in tables
    ensures Pinpoints(env, tables, op, id)
  {
    var rows, targets := tables[op.table], Targets(env, tables, op);
    forall r | r in rows
      ensures ExtractUuid(rows[r]) == r && r != ""
    {
      assert RowFormed(r, rows[r]);
      FormedUuid(r, rows[r]);
    }
    hide MatchWhere, MutateAll, ExtractUuid;
  }

  lemma {:induction false} FormedTruthful(env: Env, tables: Tables, op: TransactOp, id: string, log: seq<Change>)
    requires WellFormed(tables) && Known(op.op) && op.table in tables && Logs(env, tables, op, id, log)
    ensures Truthful(tables, log)
  {
    hide MatchWhere, MutateAll, Replay, WellFormed, UpdateLog, DeleteLog, Mixed, ExtractUuid;
    if op.op == "insert" {
      InsertReplays(tables, log[0]);
      assert log == [log[0]];
    } else if op.op == "select" {
      EmptyLog(tables);
    } else {
      var ids, found :| Selects(env, tables, op, ids, found) &&
        log == if op.op == "delete" then DeleteLog(op.table, found)
               else UpdateLog(op.table, found, RowsAfter(env, tables, op, id));
      hide Truthful;
      assert found[..|ids|] == found;
      if op.op == "delete" {
        DeleteTruthful(tables, op.table, ids, found, |ids|);
      } else {
        UpdateKeys(env, tables, op, id);
        UpdateTruthful(tables, op.table, ids, found, RowsAfter(env, tables, op, id), |ids|);
      }
    }
  }

  /** The tables after the first `k` operations. */
  function TablesAt(env: Env, tx: Tx, ops: seq<TransactOp>, k: nat): Tables
    requires k <= |ops|
  {
    var now := ExecAll(env, tx, ops[..k]);
    if now.Some? then now.value.tables else map[]
  }

  ghost predicate PinpointsAt(env: Env, tx: Tx, ops: seq<TransactOp>, k: nat)
    requires k < |ops|
  {
    var now := ExecAll(env, tx, ops[..k]);
    now.Some? && ops[k].table in now.value.tables &&
    Pinpoints(env, now.value.tables, Resolved(ops[k], now.value.named), env.newId(now.value.issued))
  }

  /** The log so far is the difference between the tables at the start and now. */
  ghost predicate DiffersBy(env: Env, tx: Tx, ops: seq<TransactOp>, logs: seq<seq<Change>>, k: nat)
    requires k <= |ops| && k <= |logs|
  {
    Replay(tx.tables, Concat(logs[..k])) == TablesAt(env, tx, ops, k)
  }

  /** One more operation, in terms of the tables. */
  lemma {:induction false} TablesMore(env: Env, tx: Tx, ops: seq<TransactOp>, k: nat)
    requires k < |ops| && ExecAll(env, tx, ops).Some?
    ensures ExecAll(env, tx, ops[..k]).Some?
    ensures
      var now := ExecAll(env, tx, ops[..k]).value;
      var op := Resolved(ops[k], now.named);
      && Known(op.op) && op.table in now.tables
      && TablesAt(env, tx, ops, k + 1) == now.tables[op.table := RowsAfter(env, now.tables, op, env.newId(now.issued))]
  {
    PrefixSucceeds(env, tx, ops, k);
    PrefixSucceeds(env, tx, ops, k + 1);
    hide ExecAll, RowsAfter, Resolve, AllMutate, Targets;
    ExecMore(env, tx, ops, k);
  }

  lemma {:induction false} ConcatAt(logs: seq<seq<Change>>, k: nat)
    requires k < |logs|
    ensures Concat(logs[..k + 1]) == Concat(logs[..k]) + logs[k]
  {
    ConcatMore(logs[..k], logs[k]);
    assert logs[..k] + [logs[k]] == logs[..k + 1];
  }

  lemma {:induction false} DiffersMoreIff(
    env: Env, tx: Tx, ops: seq<TransactOp>, now: Tx, results: seq<OpResult>, logs: seq<seq<Change>>, k: nat)
    requires Underway(env, tx, ops, |ops|, now, results, logs) && k < |ops| && DiffersBy(env, tx, ops, logs, k)
    ensures DiffersBy(env, tx, ops, logs, k + 1) <==> PinpointsAt(env, tx, ops, k)
  {
    hide ExecAll, RowsAfter, Resolve, Logs, Pinpoints, Replay, Concat, ReportsAt;
    assert ops[..|ops|] == ops;
    TablesMore(env, tx, ops, k);
    ConcatAt(logs, k);
    ReplayConcat(tx.tables, Concat(logs[..k]), logs[k]);
    var at := ExecAll(env, tx, ops[..k]).value;
    assert LogsAt(env, tx, ops, k, logs[k]);
    LogReplaysIff(env, at.tables, Resolved(ops[k], at.named), env.newId(at.issued), logs[k]);
  }

  lemma NothingDiffers(env: Env, tx: Tx, ops: seq<TransactOp>, logs: seq<seq<Change>>)
    ensures DiffersBy(env, tx, ops, logs, 0)
  {
    assert logs[..0] == [] && ops[..0] == [];
    EmptyLog(tx.tables);
  }

  lemma {:induction false} DiffersUpToIff(
    env: Env, tx: Tx, ops: seq<TransactOp>, now: Tx, results: seq<OpResult>, logs: seq<seq<Change>>, n: nat)
    requires Underway(env, tx, ops, |ops|, now, results, logs) && n <= |ops| == |logs|
    ensures (forall k :: 0 <= k <= n ==> DiffersBy(env, tx, ops, logs, k)) <==>
            (forall k :: 0 <= k < n ==> PinpointsAt(env, tx, ops, k))
    decreases n
  {
    hide Underway, DiffersBy, PinpointsAt;
    if n == 0 {
      NothingDiffers(env, tx, ops, logs);
    } else {
      DiffersUpToIff(env, tx, ops, now, results, logs, n - 1);
      if DiffersBy(env, tx, ops, logs, n - 1) {
        DiffersMoreIff(env, tx, ops, now, results, logs, n - 1);
      }
      if forall k :: 0 <= k <= n ==> DiffersBy(env, tx, ops, logs, k) {
        assert DiffersBy(env, tx, ops, logs, n - 1) && DiffersBy(env, tx, ops, logs, n);
      }
      if forall k :: 0 <= k < n ==> PinpointsAt(env, tx, ops, k) {
        assert PinpointsAt(env, tx, ops, n - 1);
      }
    }
  }

  /** The change log is the state difference after every operation of a committed transaction if and only if
      every operation pinpoints the rows it changes, on any store. */
  lemma {:induction false} DifferenceIff(
    env: Env, tx: Tx, ops: seq<TransactOp>, now: Tx, results: seq<OpResult>, logs: seq<seq<Change>>)
    requires Underway(env, tx, ops, |ops|, now, results, logs)
    ensures (forall k :: 0 <= k <= |ops| ==> Replay(tx.tables, Concat(logs[..k])) == TablesAt(env, tx, ops, k)) <==>
            (forall k :: 0 <= k < |ops| ==> PinpointsAt(env, tx, ops, k))
  {
    DiffersUpToIff(env, tx, ops, now, results, logs, |ops|);
    hide Replay, Concat, TablesAt, PinpointsAt;
    assert forall k :: 0 <= k <= |ops| ==>
      (DiffersBy(env, tx, ops, logs, k) <==> Replay(tx.tables, Concat(logs[..k])) == TablesAt(env, tx, ops, k));
  }

  /** The store is well-formed, ids are usable, and no operation writes uuids, the last one excepted. */
  ghost predicate Proper(env: Env, tables: Tables, ops: seq<TransactOp>)
  {
    && WellFormed(tables) && (forall n :: env.newId(n) != "")
    && (forall i :: 0 <= i < |ops| - 1 ==> KeepsUuid(ops[i]))
  }

  predicate NoneWritesUuid(ops: seq<TransactOp>)
  {
    forall i :: 0 <= i < |ops| ==> KeepsUuid(ops[i])
  }

  lemma {:induction false} FormedAt(env: Env, tx: Tx, ops: seq<TransactOp>, k: nat)
    requires WellFormed(tx.tables) && (forall n :: env.newId(n) != "") && k <= |ops| && ExecAll(env, tx, ops).Some?
    requires forall i :: 0 <= i < k ==> KeepsUuid(ops[i])
    ensures WellFormed(TablesAt(env, tx, ops, k))
    decreases k
  {
    if k == 0 {
      assert ops[..0] == [];
    } else {
      FormedAt(env, tx, ops, k - 1);
      PrefixSucceeds(env, tx, ops, k - 1);
      PrefixSucceeds(env, tx, ops, k);
      hide ExecAll, Exec, WellFormed, KeepsUuid;
      ExecMore(env, tx, ops, k - 1);
      ExecFormed(env, ExecAll(env, tx, ops[..k - 1]).value, ops[k - 1]);
    }
  }

  lemma {:induction false} TruthfulUpTo(
    env: Env, tx: Tx, ops: seq<TransactOp>, now: Tx, results: seq<OpResult>, logs: seq<seq<Change>>, k: nat)
    requires Underway(env, tx, ops, |ops|, now, results, logs) && k <= |ops|
    requires forall j :: 0 <= j < k ==> WellFormed(TablesAt(env, tx, ops, j))
    ensures DiffersBy(env, tx, ops, logs, k) && Truthful(tx.tables, Concat(logs[..k]))
    decreases k
  {
    assert ops[..|ops|] == ops;
    if k == 0 {
      assert logs[..0] == [] && ops[..0] == [];
      EmptyLog(tx.tables);
    } else {
      var j := k - 1;
      TruthfulUpTo(env, tx, ops, now, results, logs, j);
      hide ExecAll, RowsAfter, Resolve, Logs, Pinpoints, Replay, Concat, ReportsAt, Truthful, WellFormed;
      TablesMore(env, tx, ops, j);
      assert LogsAt(env, tx, ops, j, logs[j]);
      var at := ExecAll(env, tx, ops[..j]).value;
      var op, id := Resolved(ops[j], at.named), env.newId(at.issued);
      assert WellFormed(at.tables);
      FormedPinpoints(env, at.tables, op, id);
      FormedTruthful(env, at.tables, op, id, logs[j]);
      DiffersMoreIff(env, tx, ops, now, results, logs, j);
      ConcatAt(logs, j);
      ReplayConcat(tx.tables, Concat(logs[..j]), logs[j]);
    }
  }

  /** Change log is the state difference: on a well-formed store, replaying the log of a transaction that
      commits turns the old tables into exactly the new ones, each change names the row it replaces, and
      replaying any suffix of the log again changes nothing, even if the last operation writes uuids; if it
      does not, the new store is well-formed. */
  lemma {:induction false} LogIsDifference(
    env: Env, tx: Tx, ops: seq<TransactOp>, tables: Tables, issued: nat, out: Outcome, changes: seq<Change>)
    requires Transacted(env, tx, ops, tables, issued, out, changes) && out.Committed?
    requires Proper(env, tx.tables, ops)
    ensures Replay(tx.tables, changes) == tables && Truthful(tx.tables, changes)
    ensures Settled(tables, changes)
    ensures NoneWritesUuid(ops) ==> WellFormed(tables)
  {
    hide ReportsAt, LogsAt, Replay, Truthful, WellFormed, Settled, ExecAll, Concat, KeepsUuid;
    var now, logs :| Underway(env, tx, ops, |ops|, now, out.results, logs) &&
      now.tables == tables && now.issued == issued && changes == Concat(logs);
    assert ops[..|ops|] == ops && logs[..|ops|] == logs;
    forall j | 0 <= j < |ops|
      ensures WellFormed(TablesAt(env, tx, ops, j))
    {
      FormedAt(env, tx, ops, j);
    }
    TruthfulUpTo(env, tx, ops, now, out.results, logs, |ops|);
    LateReplay(tx.tables, changes);
    if NoneWritesUuid(ops) {
      FormedAt(env, tx, ops, |ops|);
    }
  }

  // ---- A log that names the wrong row ---------------------------------------------------------------------

  /** A transaction that gives its only row another uuid and then writes to it. */
  function Renaming(): seq<TransactOp>
  {
    [TransactOp("update", "T", map["_uuid" := UuidRef("b")], [], "", [], []),
     TransactOp("update", "T", map["x" := Bool(true)], [], "", [], [])]
  }

  function OneRow(issued: nat): Tx
  {
    Tx(map["T" := map["a" := map["_uuid" := UuidRef("a")]]], map[], issued)
  }

  /** An update of the only row, without conditions and without references. */
  lemma {:induction false} UpdatesOnly(env: Env, tx: Tx, op: TransactOp, row: Row)
    requires op.op == "update" && op.table == "T" && op.conds == [] && tx.tables == map["T" := map["a" := row]]
    requires ResolveRow(op.row, tx.named) == op.row
    ensures Targets(env, tx.tables, Resolved(op, tx.named)) == {"a"}
    ensures Exec(env, tx, op) == Some(tx.(tables := map["T" := map["a" := row + op.row]]))
  {
    hide MutateAll, ResolveRow;
    var op' := Resolved(op, tx.named);
    assert op'.conds == [] && op'.row == op.row;
    assert Targets(env, tx.tables, op') == {"a"};
    assert UpdatedRows(map["a" := row], {"a"}, op.row) == map["a" := row + op.row];
    assert RowsAfter(env, tx.tables, op', env.newId(tx.issued)) == map["a" := row + op.row];
    assert tx.tables["T" := map["a" := row + op.row]] == map["T" := map["a" := row + op.row]];
  }

  lemma RenamingResolved(named: map<string, string>)
    ensures ResolveRow(map["_uuid" := UuidRef("b")], named) == map["_uuid" := UuidRef("b")]
    ensures ResolveRow(map["x" := Bool(true)], named) == map["x" := Bool(true)]
  {
  }

  lemma {:induction false} RenamingRuns(env: Env, issued: nat)
    ensures
      var tx, ops := OneRow(issued), Renaming();
      && ExecAll(env, tx, ops).Some? && ExecAll(env, tx, ops[..0]) == Some(tx)
      && ExecAll(env, tx, ops[..1]) == Some(tx.(tables := map["T" := map["a" := map["_uuid" := UuidRef("b")]]]))
  {
    var tx, ops := OneRow(issued), Renaming();
    assert ops[..0] == [] && ops[..2] == ops;
    assert ExecAll(env, tx, ops[..0]) == Some(tx);
    hide ExecAll, Exec, ResolveRow;
    RenamingResolved(map[]);
    ExecMore(env, tx, ops, 0);
    UpdatesOnly(env, tx, ops[0], map["_uuid" := UuidRef("a")]);
    assert map["_uuid" := UuidRef("a")] + map["_uuid" := UuidRef("b")] == map["_uuid" := UuidRef("b")];
    ExecMore(env, tx, ops, 1);
    UpdatesOnly(env, ExecAll(env, tx, ops[..1]).value, ops[1], map["_uuid" := UuidRef("b")]);
  }

  /** The log of such a transaction, which always commits, is not the difference: its second entry is for a row
      that does not exist. */
  lemma {:induction false} RenamedRowMisleads(
    env: Env, issued: nat, tables: Tables, issued': nat, out: Outcome, changes: seq<Change>)
    requires Transacted(env, OneRow(issued), Renaming(), tables, issued', out, changes)
    ensures out.Committed? && Replay(OneRow(issued).tables, changes) != tables
  {
    var tx, ops := OneRow(issued), Renaming();
    RenamingRuns(env, issued);
    hide ReportsAt, LogsAt, Replay, ExecAll, Concat, Renaming;
    Atomicity(env, tx, ops, tables, issued', out, changes);
    var now, logs :| Underway(env, tx, ops, |ops|, now, out.results, logs) &&
      now.tables == tables && now.issued == issued' && changes == Concat(logs);
    RenamingPinpoints(env, issued);
    NothingDiffers(env, tx, ops, logs);
    DiffersMoreIff(env, tx, ops, now, out.results, logs, 0);
    DiffersMoreIff(env, tx, ops, now, out.results, logs, 1);
    assert logs[..2] == logs && ops[..2] == ops;
  }

  lemma {:induction false} RenamingPinpoints(env: Env, issued: nat)
    ensures |Renaming()| == 2
    ensures PinpointsAt(env, OneRow(issued), Renaming(), 0) && !PinpointsAt(env, OneRow(issued), Renaming(), 1)
  {
    hide ExecAll, RowsAfter, Exec, ResolveRow, Targets;
    var tx, ops := OneRow(issued), Renaming();
    RenamingRuns(env, issued);
    RenamingResolved(map[]);
    FormedPinpoints(env, tx.tables, Resolved(ops[0], map[]), env.newId(issued));
    var now := ExecAll(env, tx, ops[..1]).value;
    UpdatesOnly(env, now, ops[1], map["_uuid" := UuidRef("b")]);
    assert ExtractUuid(now.tables["T"]["a"]) == "b";
    assert Carried(now.tables["T"], {"a"}, "b");
  }

  // ---- Named references -----------------------------------------------------------------------------------

  /** The rows an insert or update writes its row into. */
  function StoredUnder(env: Env, tx: Tx, op: TransactOp): set<string>
    requires op.table in tx.tables
  {
    if op.op == "insert" then {env.newId(tx.issued)} else Targets(env, tx.tables, Resolved(op, tx.named))
  }

  lemma {:induction false} StoredResolved(env: Env, tx: Tx, op: TransactOp, column: string, id: string)
    requires Exec(env, tx, op).Some? && (op.op == "insert" || op.op == "update") && column in op.row && column != "_uuid"
    requires op.table in tx.tables && id in StoredUnder(env, tx, op)
    ensures
      var rows := Exec(env, tx, op).value.tables[op.table];
      id in rows && column in rows[id] && rows[id][column] == Resolve(op.row[column], tx.named)
  {
    hide MatchWhere, MutateAll, Resolve;
  }

  /** What a value becomes at a place to which a path leads: a reference to a name that some earlier insert gave
      is the uuid issued to the latest of these, any other value that is not a set is as it was, and a set is a
      set of as many. */
  predicate Becomes(env: Env, issued: nat, ops: seq<TransactOp>, j: nat, was: Value, now: Value)
    requires j <= |ops|
  {
    if IsNamed(was) && LatestInsert(ops, j, was.elems[1].s).Some? then
      now == UuidRef(env.newId(issued + Inserts(ops[..LatestInsert(ops, j, was.elems[1].s).value])))
    else if IsSet(was) then IsSet(now) && |now.elems[1].elems| == |was.elems[1].elems|
    else now == was
  }

  /** Named references, over a whole transaction: in a list of operations that goes through, whatever an insert
      or update writes into a column is stored, in every row it writes and at every path into nested sets, with
      exactly the names resolved that earlier inserts gave. */
  lemma {:induction false} ReferencesResolved(
    env: Env, tables: Tables, issued: nat, ops: seq<TransactOp>, j: nat, column: string, id: string, path: seq<nat>)
    requires ExecAll(env, Tx(tables, map[], issued), ops).Some? && j < |ops|
    requires ops[j].op == "insert" || ops[j].op == "update"
    requires column in ops[j].row && column != "_uuid"
    ensures
      var before, after := ExecAll(env, Tx(tables, map[], issued), ops[..j]), ExecAll(env, Tx(tables, map[], issued), ops[..j + 1]);
      && before.Some? && after.Some? && ops[j].table in before.value.tables && ops[j].table in after.value.tables
      && (id in StoredUnder(env, before.value, ops[j]) ==>
            && id in after.value.tables[ops[j].table] && column in after.value.tables[ops[j].table][id]
            && var was, now := AtPath(ops[j].row[column], path), AtPath(after.value.tables[ops[j].table][id][column], path);
               && (now.Some? <==> was.Some?)
               && (was.Some? ==> Becomes(env, issued, ops, j, was.value, now.value)))
  {
    hide Exec, ExecAll, Resolve, AtPath, StoredUnder;
    var tx := Tx(tables, map[], issued);
    PrefixSucceeds(env, tx, ops, j);
    PrefixSucceeds(env, tx, ops, j + 1);
    ExecMore(env, tx, ops, j);
    var before := ExecAll(env, tx, ops[..j]).value;
    ExecTables(env, before, ops[j]);
    if id in StoredUnder(env, before, ops[j]) {
      StoredResolved(env, before, ops[j], column, id);
      ResolveAtPath(ops[j].row[column], before.named, path);
      var was := AtPath(ops[j].row[column], path);
      if was.Some? && IsNamed(was.value) {
        NameMeans(env, tables, issued, ops, j, was.value.elems[1].s);
      }
    }
  }

  lemma ExecTables(env: Env, tx: Tx, op: TransactOp)
    requires Exec(env, tx, op).Some?
    ensures op.table in tx.tables && op.table in Exec(env, tx, op).value.tables
  {
  }
}
