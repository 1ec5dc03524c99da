/** What each operation of a transaction does, place by place: which rows it selects, what is in every column of
    every row afterwards, and what a select answers. */
module OvsdbCells {
  import opened OvsdbValues
  import opened OvsdbLaws
  import opened OvsdbLog
  import opened OvsdbTransact
  import opened OvsdbOutcomes

  // ---- Selection by numbers ---------------------------------------------------------------------------

  /** A comparison of one column with a number. */
  datatype Bound = Bound(column: string, fn: string, limit: real)

  function ConditionOf(b: Bound): Value
  {
    Arr([Str(b.column), Str(b.fn), Num(b.limit)])
  }

  predicate IsNumber(row: Row, column: string)
  {
    column in row && row[column].Num?
  }

  /** The number in the column stands in the relation to the limit. */
  predicate Meets(row: Row, b: Bound)
  {
    IsNumber(row, b.column) && Relates(b.fn, row[b.column].n, b.limit)
  }

  /** A row with numbers in these columns meets conditions on them if the numbers stand in all these relations. */
  lemma {:induction false} NumbersMatch(text: Text, row: Row, bounds: seq<Bound>)
    requires forall i :: 0 <= i < |bounds| ==> Comparison(bounds[i].fn) && IsNumber(row, bounds[i].column)
    ensures MatchWhere(text, row, seq(|bounds|, i requires 0 <= i < |bounds| => ConditionOf(bounds[i]))) <==>
            forall i :: 0 <= i < |bounds| ==> Meets(row, bounds[i])
  {
    hide Relates, EvalCondition, Comparison;
    var conds := seq(|bounds|, i requires 0 <= i < |bounds| => ConditionOf(bounds[i]));
    forall i | 0 <= i < |bounds|
      ensures MatchOne(text, row, conds[i]) <==> Meets(row, bounds[i])
    {
      assert Comparison(bounds[i].fn) && IsNumber(row, bounds[i].column);
      NumbersCompare(text, row[bounds[i].column].n, bounds[i].limit);
      assert row[bounds[i].column] == Num(row[bounds[i].column].n);
    }
  }

  /** A delete with conditions on numeric columns removes exactly the rows whose numbers meet them all. */
  lemma {:induction false} DeleteByNumbers(env: Env, tx: Tx, op: TransactOp, bounds: seq<Bound>, id: string)
    requires op.op == "delete" && op.table in tx.tables && id in tx.tables[op.table]
    requires op.conds == seq(|bounds|, i requires 0 <= i < |bounds| => ConditionOf(bounds[i]))
    requires forall i :: 0 <= i < |bounds| ==>
               Comparison(bounds[i].fn) && IsNumber(tx.tables[op.table][id], bounds[i].column)
    ensures Exec(env, tx, op).Some? && op.table in Exec(env, tx, op).value.tables
    ensures
      var row, rows' := tx.tables[op.table][id], Exec(env, tx, op).value.tables[op.table];
      && (id in rows' <==> exists i :: 0 <= i < |bounds| && !Meets(row, bounds[i]))
      && (id in rows' ==> rows'[id] == row)
  {
    hide Meets, MatchWhere, Comparison, IsNumber;
    NumbersMatch(env.text, tx.tables[op.table][id], bounds);
    NumbersUnresolved(op.conds, bounds, tx.named);
  }

  lemma {:induction false} NumbersUnresolved(conds: seq<Value>, bounds: seq<Bound>, named: map<string, string>)
    requires conds == seq(|bounds|, i requires 0 <= i < |bounds| => ConditionOf(bounds[i]))
    ensures ResolveWhere(conds, named) == conds
  {
    forall i | 0 <= i < |conds|
      ensures ResolveWhere(conds, named)[i] == conds[i]
    {
      assert conds[i] == ConditionOf(bounds[i]);
    }
  }

  /** Whether an operation selects a row: the names known by then are filled in in its conditions. */
  predicate Selected(env: Env, tx: Tx, op: TransactOp, id: string)
  {
    && op.table in tx.tables && id in tx.tables[op.table]
    && MatchWhere(env.text, tx.tables[op.table][id], ResolveWhere(op.conds, tx.named))
  }

  // ---- Whether an operation goes through ----------------------------------------------------------------

  /** An operation goes through if and only if it is one of five kinds, its table exists and, for a mutate, every
      selected row takes all its mutations. */
  lemma {:induction false} GoesThroughIff(env: Env, tx: Tx, op: TransactOp)
    ensures Exec(env, tx, op).Some? <==>
            && op.op in {"insert", "select", "update", "delete", "mutate"}
            && op.table in tx.tables
            && (op.op == "mutate" ==>
                  forall id :: id in tx.tables[op.table] && Selected(env, tx, op, id) ==>
                    MutateAll(env.text, tx.tables[op.table][id], op.mutations).Mutated?)
  {
    hide MatchWhere, MutateAll, Resolve;
  }

  // ---- Cells ------------------------------------------------------------------------------------------

  /** No operation touches another table, and none makes or drops one. */
  lemma {:induction false} OtherTables(env: Env, tx: Tx, op: TransactOp)
    requires Exec(env, tx, op).Some?
    ensures
      var after := Exec(env, tx, op).value.tables;
      && after.Keys == tx.tables.Keys && op.table in after
      && forall t :: t in after && t != op.table ==> after[t] == tx.tables[t]
  {
    hide RowsAfter, Resolve;
  }

  /** An insert adds one row under the new id, with the columns given, names filled in, and its uuid; no other row
      changes. */
  lemma {:induction false} InsertCells(env: Env, tx: Tx, op: TransactOp)
    requires Exec(env, tx, op).Some? && op.op == "insert"
    ensures op.table in tx.tables && op.table in Exec(env, tx, op).value.tables
    ensures
      var rows, rows', id := tx.tables[op.table], Exec(env, tx, op).value.tables[op.table], env.newId(tx.issued);
      && rows'.Keys == rows.Keys + {id}
      && (forall r :: r in rows && r != id ==> rows'[r] == rows[r])
      && rows'[id].Keys == op.row.Keys + {"_uuid"}
      && rows'[id]["_uuid"] == Arr([Str("uuid"), Str(id)])
      && (forall c :: c in op.row && c != "_uuid" ==> rows'[id][c] == Resolve(op.row[c], tx.named))
      && Exec(env, tx, op).value.issued == tx.issued + 1
  {
    hide Resolve;
  }

  /** An update writes the columns given, names filled in, into every selected row, and nothing else. */
  lemma {:induction false} UpdateCells(env: Env, tx: Tx, op: TransactOp, id: string, c: string)
    requires Exec(env, tx, op).Some? && op.op == "update"
    ensures op.table in tx.tables && op.table in Exec(env, tx, op).value.tables
    ensures
      var rows, rows' := tx.tables[op.table], Exec(env, tx, op).value.tables[op.table];
      var written := Selected(env, tx, op, id) && c in op.row;
      && (id in rows' <==> id in rows)
      && (id in rows ==> (c in rows'[id] <==> c in rows[id] || written))
      && (id in rows && c in rows'[id] ==>
            rows'[id][c] == if written then Resolve(op.row[c], tx.named) else rows[id][c])
      && Exec(env, tx, op).value.issued == tx.issued
  {
    hide Resolve, MatchWhere;
  }

  /** A delete removes the selected rows and leaves the others as they are; a select leaves all of them. */
  lemma {:induction false} DeleteCells(env: Env, tx: Tx, op: TransactOp, id: string)
    requires Exec(env, tx, op).Some? && (op.op == "delete" || op.op == "select")
    ensures op.table in tx.tables && op.table in Exec(env, tx, op).value.tables
    ensures
      var rows, rows' := tx.tables[op.table], Exec(env, tx, op).value.tables[op.table];
      && (id in rows' <==> id in rows && !(op.op == "delete" && Selected(env, tx, op, id)))
      && (id in rows' ==> rows'[id] == rows[id])
      && Exec(env, tx, op).value.issued == tx.issued
  {
    hide Resolve, MatchWhere;
  }

  /** A mutate takes every selected row through all its mutations, in order, and leaves the others as they are. */
  lemma {:induction false} MutateCells(env: Env, tx: Tx, op: TransactOp, id: string)
    requires Exec(env, tx, op).Some? && op.op == "mutate"
    ensures op.table in tx.tables && op.table in Exec(env, tx, op).value.tables
    ensures
      var rows, rows' := tx.tables[op.table], Exec(env, tx, op).value.tables[op.table];
      && (id in rows' <==> id in rows)
      && (id in rows && !Selected(env, tx, op, id) ==> rows'[id] == rows[id])
      && (Selected(env, tx, op, id) ==> MutateAll(env.text, rows[id], op.mutations) == Mutated(rows'[id]))
      && Exec(env, tx, op).value.issued == tx.issued
  {
    hide Resolve, MatchWhere, MutateAll;
  }

  /** Mutations one after the other: each takes what the one before it left. */
  lemma {:induction false} MutationsInOrder(text: Text, row: Row, ms: seq<Value>, m: Value)
    ensures MutateAll(text, row, []) == Mutated(row)
    ensures MutateAll(text, row, ms).Mutated? ==>
              MutateAll(text, row, ms + [m]) == MutateBy(text, MutateAll(text, row, ms).row, m)
    ensures !MutateAll(text, row, ms).Mutated? ==> MutateAll(text, row, ms + [m]) == MutateAll(text, row, ms)
  {
    hide MutateBy;
    assert (ms + [m])[..|ms|] == ms;
  }

  // ---- What is reported ---------------------------------------------------------------------------------

  /** What a select answers: every selected row once, each with the columns asked for that it has, and its uuid. */
  lemma {:induction false} SelectAnswers(env: Env, tx: Tx, op: TransactOp, id: string, r: OpResult)
    requires op.op == "select" && op.table in tx.tables
    requires Reports(env, tx.tables, Resolved(op, tx.named), id, r)
    ensures r.RowsResult?
    ensures exists ids: seq<string> ::
      && |ids| == |r.rows|
      && (forall i, j :: 0 <= i < j < |ids| ==> ids[i] != ids[j])
      && (forall k :: k in ids <==> Selected(env, tx, op, k))
      && (forall i, c :: 0 <= i < |ids| ==>
            && ids[i] in tx.tables[op.table]
            && (c in r.rows[i] <==>
                c in tx.tables[op.table][ids[i]] && (op.columns == [] || c in op.columns || c == "_uuid"))
            && (c in r.rows[i] ==> r.rows[i][c] == tx.tables[op.table][ids[i]][c]))
  {
    hide Resolve, MatchWhere;
    var op' := Resolved(op, tx.named);
    var ids, found :| Selects(env, tx.tables, op', ids, found) && r == RowsResult(Picked(found, op'.columns));
    forall i | 0 <= i < |ids|
      ensures forall c :: c in r.rows[i] <==>
                c in tx.tables[op.table][ids[i]] && (op.columns == [] || c in op.columns || c == "_uuid")
      ensures forall c :: c in r.rows[i] ==> r.rows[i][c] == tx.tables[op.table][ids[i]][c]
    {
      FilterCells(found[i], op.columns);
    }
    hide FilterColumns;
    forall k
      ensures k in ids <==> Selected(env, tx, op, k)
    {
    }
  }

  /** An insert answers the uuid of the new row; update, delete and mutate the number of rows selected. */
  lemma {:induction false} OthersAnswer(env: Env, tx: Tx, op: TransactOp, id: string, r: OpResult)
    requires op.table in tx.tables && Known(op.op) && op.op != "select"
    requires Reports(env, tx.tables, Resolved(op, tx.named), id, r)
    ensures op.op == "insert" ==> r == InsertResult(id)
    ensures op.op != "insert" ==> exists ids: set<string> ::
              (forall k :: k in ids <==> Selected(env, tx, op, k)) && r == CountResult(|ids|)
  {
    hide Resolve, MatchWhere;
    var ids := Targets(env, tx.tables, Resolved(op, tx.named));
    assert forall k :: k in ids <==> Selected(env, tx, op, k);
  }

  // ---- Named references in conditions --------------------------------------------------------------------

  /** Named references in the conditions of an operation of a transaction, at every path into nested sets: exactly
      the names given by earlier inserts are resolved, and column and function are as they were. */
  lemma {:induction false} ConditionsResolved(
    env: Env, tables: Tables, issued: nat, ops: seq<TransactOp>, j: nat, i: nat, path: seq<nat>)
    requires ExecAll(env, Tx(tables, map[], issued), ops).Some? && j < |ops| && i < |ops[j].conds|
    ensures ExecAll(env, Tx(tables, map[], issued), ops[..j]).Some?
    ensures
      var was, now := ops[j].conds[i], ResolveWhere(ops[j].conds, ExecAll(env, Tx(tables, map[], issued), ops[..j]).value.named)[i];
      && (!(was.Arr? && |was.elems| == 3) ==> now == was)
      && (was.Arr? && |was.elems| == 3 ==>
            && now.Arr? && |now.elems| == 3 && now.elems[0] == was.elems[0] && now.elems[1] == was.elems[1]
            && var v, v' := AtPath(was.elems[2], path), AtPath(now.elems[2], path);
               && (v'.Some? <==> v.Some?)
               && (v.Some? ==> Becomes(env, issued, ops, j, v.value, v'.value)))
  {
    hide ExecAll, Resolve, AtPath;
    var tx := Tx(tables, map[], issued);
    PrefixSucceeds(env, tx, ops, j);
    var named, was := ExecAll(env, tx, ops[..j]).value.named, ops[j].conds[i];
    if was.Arr? && |was.elems| == 3 {
      ResolveAtPath(was.elems[2], named, path);
      var v := AtPath(was.elems[2], path);
      if v.Some? && IsNamed(v.value) {
        NameMeans(env, tables, issued, ops, j, v.value.elems[1].s);
      }
    }
  }
}
