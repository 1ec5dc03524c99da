/** The in-memory table store. Rows of a table are visited in whatever order the map yields them. */
module OvsdbStore {
  import opened Basics
  import opened OvsdbValues
  import opened OvsdbLog

  /** The rows a condition list selects. */
  function Matched(text: Text, rows: Rows, conds: seq<Value>): set<string>
  {
    set id | id in rows && MatchWhere(text, rows[id], conds)
  }

  function UpdatedRows(rows: Rows, ids: set<string>, values: Row): Rows
  {
    map id | id in rows :: if id in ids then rows[id] + values else rows[id]
  }

  predicate AllMutate(text: Text, rows: Rows, ids: set<string>, ms: seq<Value>)
  {
    forall id :: id in rows && id in ids ==> MutateAll(text, rows[id], ms).Mutated?
  }

  function MutatedRows(text: Text, rows: Rows, ids: set<string>, ms: seq<Value>): Rows
  {
    map id | id in rows :: if id in ids then MutateAll(text, rows[id], ms).row else rows[id]
  }

  /** A list of ids that visits a set once each, in some order. */
  ghost predicate Enumerates(ids: seq<string>, s: set<string>)
  {
    && (forall i, j :: 0 <= i < j < |ids| ==> ids[i] != ids[j])
    && (forall id :: id in ids <==> id in s)
  }

  predicate RejectedFor(text: Text, row: Row, ms: seq<Value>, why: Reason)
  {
    MutateAll(text, row, ms).Rejected? && MutateAll(text, row, ms).why == why
  }

  datatype MutateResult = Counted(count: nat) | Refused(why: Reason) | Crashed

  lemma MatchedHas(text: Text, rows: Rows, conds: seq<Value>, id: string)
    ensures id in Matched(text, rows, conds) <==> id in rows && MatchWhere(text, rows[id], conds)
    ensures Matched(text, rows, conds) - rows.Keys == {} && Matched(text, rows, conds) <= rows.Keys
  {
    hide MatchWhere;
  }

  lemma VisitOne(all: set<string>, todo: set<string>, id: string)
    requires id in todo
    ensures all - (todo - {id}) == if id in all then all - todo + {id} else all - todo
    ensures id in all ==> |all - (todo - {id})| == |all - todo| + 1
  {
    if id in all {
      assert all - (todo - {id}) == all - todo + {id};
    } else {
      assert all - (todo - {id}) == all - todo;
    }
  }

  lemma UpdateOne(rows: Rows, ids: set<string>, id: string, values: Row)
    requires id in rows && id !in ids
    ensures id in UpdatedRows(rows, ids, values) && UpdatedRows(rows, ids, values)[id] == rows[id]
    ensures UpdatedRows(rows, ids + {id}, values) == UpdatedRows(rows, ids, values)[id := rows[id] + values]
  {
  }

  lemma DeleteOne(rows: Rows, ids: set<string>, id: string)
    requires id in rows && id !in ids
    ensures id in rows - ids && (rows - ids)[id] == rows[id]
    ensures rows - (ids + {id}) == rows - ids - {id}
  {
  }

  /** The rows found under some ids. */
  predicate Shows(rows: Rows, ids: seq<string>, found: seq<Row>)
  {
    |found| == |ids| && forall i :: 0 <= i < |ids| ==> ids[i] in rows && found[i] == rows[ids[i]]
  }

  lemma ShowOne(rows: Rows, ids: seq<string>, found: seq<Row>, id: string)
    requires Shows(rows, ids, found) && id in rows
    ensures Shows(rows, ids + [id], found + [rows[id]])
  {
  }

  lemma EnumerateOne(ids: seq<string>, s: set<string>, id: string)
    requires Enumerates(ids, s) && id !in s
    ensures Enumerates(ids + [id], s + {id})
  {
  }

  lemma UpdateNone(rows: Rows, values: Row)
    ensures UpdatedRows(rows, {}, values) == rows
  {
  }

  lemma MutateNone(text: Text, rows: Rows, ms: seq<Value>)
    ensures MutatedRows(text, rows, {}, ms) == rows
  {
  }

  lemma MutateOne(text: Text, rows: Rows, ids: set<string>, id: string, ms: seq<Value>)
    requires id in rows && id !in ids
    ensures id in MutatedRows(text, rows, ids, ms) && MutatedRows(text, rows, ids, ms)[id] == rows[id]
    ensures MutatedRows(text, rows, ids + {id}, ms) ==
            MutatedRows(text, rows, ids, ms)[id := MutateAll(text, rows[id], ms).row]
  {
    hide MutateAll;
  }

  // ---- Visiting orders --------------------------------------------------------------------------------

  function RowAt(rows: Rows, id: string): Row
  {
    if id in rows then rows[id] else map[]
  }

  /** How mutating the rows of a list in that order ends: at the first that does not go through, or with a
      count. */
  function Verdict(text: Text, rows: Rows, order: seq<string>, ms: seq<Value>): MutateResult
  {
    if order == [] then Counted(0)
    else
      var init := Verdict(text, rows, order[..|order| - 1], ms);
      if !init.Counted? then init
      else
        match MutateAll(text, RowAt(rows, order[|order| - 1]), ms)
        case Mutated(_) => Counted(init.count + 1)
        case Rejected(_, why) => Refused(why)
        case Panicked(_) => Crashed
  }

  lemma {:induction false} VerdictMore(text: Text, rows: Rows, order: seq<string>, id: string, ms: seq<Value>)
    ensures
      var init := Verdict(text, rows, order, ms);
      Verdict(text, rows, order + [id], ms) ==
      if !init.Counted? then init
      else
        match MutateAll(text, RowAt(rows, id), ms)
        case Mutated(_) => Counted(init.count + 1)
        case Rejected(_, why) => Refused(why)
        case Panicked(_) => Crashed
  {
    hide MutateAll;
    assert (order + [id])[..|order|] == order;
  }

  /** Rows after the first that does not go through make no difference. */
  lemma {:induction false} VerdictStops(text: Text, rows: Rows, order: seq<string>, more: seq<string>, ms: seq<Value>)
    requires !Verdict(text, rows, order, ms).Counted?
    ensures Verdict(text, rows, order + more, ms) == Verdict(text, rows, order, ms)
    decreases |more|
  {
    hide MutateAll, Verdict;
    if more == [] {
      assert order + more == order;
    } else {
      VerdictMore(text, rows, order, more[0], ms);
      VerdictStops(text, rows, order + [more[0]], more[1..], ms);
      assert order + [more[0]] + more[1..] == order + more;
    }
  }

  /** A verdict is that of some row on the list. */
  lemma {:induction false} VerdictMeans(text: Text, rows: Rows, order: seq<string>, ms: seq<Value>)
    ensures
      var v := Verdict(text, rows, order, ms);
      && (v.Counted? <==> forall id :: id in order ==> MutateAll(text, RowAt(rows, id), ms).Mutated?)
      && (v.Counted? ==> v.count == |order|)
      && (v.Refused? ==> exists id :: id in order && RejectedFor(text, RowAt(rows, id), ms, v.why))
      && (v.Crashed? ==> exists id :: id in order && MutateAll(text, RowAt(rows, id), ms).Panicked?)
  {
    hide MutateAll;
    if order != [] {
      var init, last := order[..|order| - 1], order[|order| - 1];
      assert forall id :: id in order <==> id in init || id == last;
      VerdictMeans(text, rows, init, ms);
      assert MutateAll(text, RowAt(rows, last), ms).Rejected? ==>
               RejectedFor(text, RowAt(rows, last), ms, MutateAll(text, RowAt(rows, last), ms).why);
    }
  }

  /** A list that visits some of a set can be continued to visit all of it. */
  lemma {:induction false} Continued(seen: seq<string>, part: set<string>, s: set<string>) returns (rest: seq<string>)
    requires Enumerates(seen, part) && part <= s
    ensures Enumerates(seen + rest, s)
    decreases s - part
  {
    if id :| id in s && id !in part {
      EnumerateOne(seen, part, id);
      var more := Continued(seen + [id], part + {id}, s);
      rest := [id] + more;
      assert seen + [id] + more == seen + rest;
    } else {
      rest := [];
      assert seen + rest == seen && part == s;
    }
  }

  /** Any row of a set may be visited first, and then its verdict is the outcome. */
  lemma {:induction false} FirstDecides(text: Text, rows: Rows, ids: set<string>, id: string, ms: seq<Value>)
    returns (order: seq<string>)
    requires id in ids && !MutateAll(text, RowAt(rows, id), ms).Mutated?
    ensures Enumerates(order, ids)
    ensures Verdict(text, rows, order, ms).Crashed? <==> MutateAll(text, RowAt(rows, id), ms).Panicked?
  {
    hide MutateAll;
    assert Enumerates([id], {id});
    var rest := Continued([id], {id}, ids);
    order := [id] + rest;
    hide Enumerates;
    VerdictMore(text, rows, [], id, ms);
    assert [] + [id] == [id];
    VerdictStops(text, rows, [id], rest, ms);
  }

  ghost predicate SomePanics(text: Text, rows: Rows, ids: set<string>, ms: seq<Value>)
  {
    exists id :: id in ids && MutateAll(text, RowAt(rows, id), ms).Panicked?
  }

  ghost predicate SomeRejects(text: Text, rows: Rows, ids: set<string>, ms: seq<Value>)
  {
    exists id :: id in ids && MutateAll(text, RowAt(rows, id), ms).Rejected?
  }

  /** Mutating rows can bring the server down in some visiting order if and only if some row panics, and does
      so in every visiting order if and only if moreover none is rejected. */
  lemma {:induction false} CrashOrders(text: Text, rows: Rows, ids: set<string>, ms: seq<Value>)
    ensures (exists order :: Enumerates(order, ids) && Verdict(text, rows, order, ms).Crashed?) <==>
            SomePanics(text, rows, ids, ms)
    ensures (forall order :: Enumerates(order, ids) ==> Verdict(text, rows, order, ms).Crashed?) <==>
            SomePanics(text, rows, ids, ms) && !SomeRejects(text, rows, ids, ms)
  {
    hide MutateAll, Verdict;
    forall order | Enumerates(order, ids)
      ensures Verdict(text, rows, order, ms).Crashed? ==> SomePanics(text, rows, ids, ms)
      ensures SomePanics(text, rows, ids, ms) && !SomeRejects(text, rows, ids, ms) ==>
                Verdict(text, rows, order, ms).Crashed?
    {
      VerdictMeans(text, rows, order, ms);
    }
    if id :| id in ids && MutateAll(text, RowAt(rows, id), ms).Panicked? {
      var order := FirstDecides(text, rows, ids, id, ms);
    } else {
      assert Enumerates([], {});
      var order := Continued([], {}, ids);
      assert [] + order == order;
      assert !Verdict(text, rows, order, ms).Crashed?;
    }
    if id :| id in ids && MutateAll(text, RowAt(rows, id), ms).Rejected? {
      var order := FirstDecides(text, rows, ids, id, ms);
      assert !Verdict(text, rows, order, ms).Crashed?;
    }
  }

  /** The mutations of one row, one after the other. */
  method MutateRow(text: Text, row: Row, ms: seq<Value>) returns (r: RowOutcome)
    ensures r == MutateAll(text, row, ms)
  {
    r := Mutated(row);
    var i := 0;
    while i < |ms|
      invariant 0 <= i <= |ms|
      invariant r.Mutated? && r == MutateAll(text, row, ms[..i])
    {
      assert ms[..i + 1][..i] == ms[..i];
      r := MutateBy(text, r.row, ms[i]);
      hide MutateBy;
      i := i + 1;
      if !r.Mutated? {
        StopEarly(text, row, ms, i);
        return;
      }
    }
    assert ms[..|ms|] == ms;
  }

  lemma {:induction false} StopEarly(text: Text, row: Row, ms: seq<Value>, i: nat)
    requires i <= |ms| && !MutateAll(text, row, ms[..i]).Mutated?
    ensures MutateAll(text, row, ms) == MutateAll(text, row, ms[..i])
    decreases |ms|
  {
    hide MutateBy;
    if i < |ms| {
      var init := ms[..|ms| - 1];
      assert init[..i] == ms[..i];
      StopEarly(text, row, init, i);
    } else {
      assert ms[..i] == ms;
    }
  }

  /** The column filter as a loop over the wanted columns; a row always keeps its uuid. */
  method FilterRow(row: Row, columns: seq<string>) returns (r: Row)
    ensures r == FilterColumns(row, columns)
  {
    if columns == [] {
      return row;
    }
    r := map[];
    var i := 0;
    while i < |columns|
      invariant 0 <= i <= |columns|
      invariant forall c :: c in r <==> c in row && c in columns[..i]
      invariant forall c :: c in r ==> r[c] == row[c]
    {
      if columns[i] in row {
        r := r[columns[i] := row[columns[i]]];
      }
      assert columns[..i + 1] == columns[..i] + [columns[i]];
      i := i + 1;
    }
    assert columns[..|columns|] == columns;
    if "_uuid" in row {
      r := r["_uuid" := row["_uuid"]];
    }
    assert r == FilterColumns(row, columns);
  }

  // ---- The loops over the rows of one table ---------------------------------------------------------

  method SelectIn(text: Text, rows: Rows, conds: seq<Value>) returns (found: seq<Row>, ghost ids: seq<string>)
    ensures Enumerates(ids, Matched(text, rows, conds)) && Shows(rows, ids, found)
  {
    assert Enumerates([], {}) && Shows(rows, [], []);
    hide MatchWhere, Matched, Enumerates, Shows;
    found, ids := [], [];
    ghost var all := Matched(text, rows, conds);
    var todo := rows.Keys;
    MatchedHas(text, rows, conds, "");
    while todo != {}
      invariant todo <= rows.Keys
      invariant Enumerates(ids, all - todo) && Shows(rows, ids, found)
    {
      var id :| id in todo;
      VisitOne(all, todo, id);
      MatchedHas(text, rows, conds, id);
      if MatchWhere(text, rows[id], conds) {
        EnumerateOne(ids, all - todo, id);
        ShowOne(rows, ids, found, id);
        found := found + [rows[id]];
        ids := ids + [id];
      }
      todo := todo - {id};
    }
    assert all - {} == all;
  }

  method UpdateIn(text: Text, rows: Rows, conds: seq<Value>, values: Row) returns (r: Rows, count: nat)
    ensures r == UpdatedRows(rows, Matched(text, rows, conds), values)
    ensures count == |Matched(text, rows, conds)|
  {
    hide MatchWhere, Matched, UpdatedRows;
    r, count := rows, 0;
    ghost var all := Matched(text, rows, conds);
    var todo := rows.Keys;
    UpdateNone(rows, values);
    MatchedHas(text, rows, conds, "");
    while todo != {}
      invariant todo <= rows.Keys
      invariant r == UpdatedRows(rows, all - todo, values)
      invariant count == |all - todo|
    {
      var id :| id in todo;
      VisitOne(all, todo, id);
      MatchedHas(text, rows, conds, id);
      UpdateOne(rows, all - todo, id, values);
      var row := r[id];
      if MatchWhere(text, row, conds) {
        r := r[id := row + values];
        count := count + 1;
      }
      todo := todo - {id};
    }
    assert all - {} == all;
  }

  method DeleteIn(text: Text, rows: Rows, conds: seq<Value>) returns (r: Rows, count: nat)
    ensures r == rows - Matched(text, rows, conds)
    ensures count == |Matched(text, rows, conds)|
  {
    hide MatchWhere, Matched;
    r, count := rows, 0;
    ghost var all := Matched(text, rows, conds);
    var todo := rows.Keys;
    MatchedHas(text, rows, conds, "");
    assert rows - {} == rows;
    while todo != {}
      invariant todo <= rows.Keys
      invariant r == rows - (all - todo)
      invariant count == |all - todo|
    {
      var id :| id in todo;
      VisitOne(all, todo, id);
      MatchedHas(text, rows, conds, id);
      DeleteOne(rows, all - todo, id);
      if MatchWhere(text, r[id], conds) {
        r := r - {id};
        count := count + 1;
      }
      todo := todo - {id};
    }
    assert all - {} == all;
  }

  /** An outcome of mutating a set of rows: the verdict of some visiting order. */
  ghost predicate MayEnd(text: Text, rows: Rows, ids: set<string>, ms: seq<Value>, how: MutateResult)
  {
    exists order :: Enumerates(order, ids) && how == Verdict(text, rows, order, ms)
  }

  /** What an outcome says about the rows, whatever the order. */
  lemma {:induction false} EndMeans(text: Text, rows: Rows, ids: set<string>, ms: seq<Value>, how: MutateResult)
    requires MayEnd(text, rows, ids, ms, how) && ids <= rows.Keys
    ensures how.Counted? <==> AllMutate(text, rows, ids, ms)
    ensures how.Refused? ==> exists id :: id in ids && RejectedFor(text, rows[id], ms, how.why)
    ensures how.Crashed? ==> exists id :: id in ids && MutateAll(text, rows[id], ms).Panicked?
  {
    hide MutateAll, Verdict, RejectedFor;
    var order :| Enumerates(order, ids) && how == Verdict(text, rows, order, ms);
    VerdictMeans(text, rows, order, ms);
    if how.Refused? {
      var id :| id in order && RejectedFor(text, RowAt(rows, id), ms, how.why);
      assert id in ids && RejectedFor(text, rows[id], ms, how.why);
    }
    if how.Crashed? {
      var id :| id in order && MutateAll(text, RowAt(rows, id), ms).Panicked?;
      assert id in ids && MutateAll(text, rows[id], ms).Panicked?;
    }
  }

  /** The loop stops at a row that does not go through. */
  lemma {:induction false} StopsAt(
    text: Text, rows: Rows, ids: set<string>, seen: seq<string>, part: set<string>, id: string, ms: seq<Value>)
    requires Enumerates(seen, part) && part <= ids && id in ids && id !in part && id in rows
    requires Verdict(text, rows, seen, ms).Counted?
    ensures
      var r := MutateAll(text, rows[id], ms);
      !r.Mutated? ==> MayEnd(text, rows, ids, ms, if r.Panicked? then Crashed else Refused(r.why))
  {
    hide MutateAll, Verdict;
    EnumerateOne(seen, part, id);
    var rest := Continued(seen + [id], part + {id}, ids);
    hide Enumerates;
    VerdictMore(text, rows, seen, id, ms);
    if !MutateAll(text, rows[id], ms).Mutated? {
      VerdictStops(text, rows, seen + [id], rest, ms);
    }
  }

  /** The rows of `part` have been mutated, in the order `seen`, and all went through. */
  ghost predicate Seen(
    text: Text, rows: Rows, part: set<string>, seen: seq<string>, ms: seq<Value>, r: Rows, count: nat)
  {
    && Enumerates(seen, part) && Verdict(text, rows, seen, ms) == Counted(count) && count == |part|
    && r == MutatedRows(text, rows, part, ms)
  }

  lemma {:induction false} NothingSeen(text: Text, rows: Rows, ms: seq<Value>)
    ensures Seen(text, rows, {}, [], ms, rows, 0)
  {
    MutateNone(text, rows, ms);
  }

  lemma {:induction false} SeeOne(
    text: Text, rows: Rows, part: set<string>, seen: seq<string>, ms: seq<Value>, r: Rows, count: nat, id: string)
    requires Seen(text, rows, part, seen, ms, r, count) && id in rows && id !in part
    ensures r.Keys == rows.Keys && r[id] == rows[id]
    ensures
      var now := MutateAll(text, rows[id], ms);
      now.Mutated? ==> Seen(text, rows, part + {id}, seen + [id], ms, r[id := now.row], count + 1)
  {
    hide MutateAll, Verdict, Enumerates, MutatedRows;
    MutateOne(text, rows, part, id, ms);
    MutatedKeys(text, rows, part, ms);
    VerdictMore(text, rows, seen, id, ms);
    EnumerateOne(seen, part, id);
  }

  lemma MutatedKeys(text: Text, rows: Rows, ids: set<string>, ms: seq<Value>)
    ensures MutatedRows(text, rows, ids, ms).Keys == rows.Keys
  {
    hide MutateAll;
  }

  lemma {:induction false} SeenAll(
    text: Text, rows: Rows, ids: set<string>, seen: seq<string>, ms: seq<Value>, r: Rows, count: nat)
    requires Seen(text, rows, ids, seen, ms, r, count)
    ensures MayEnd(text, rows, ids, ms, Counted(count)) && count == |ids| && r == MutatedRows(text, rows, ids, ms)
  {
    hide MutateAll, Verdict, Enumerates, MutatedRows;
  }

  /** How the loop ends at a row that does not go through. */
  function Stop(outcome: RowOutcome): (how: MutateResult)
    requires !outcome.Mutated?
    ensures how.Crashed? <==> outcome.Panicked?
    ensures !how.Counted?
  {
    if outcome.Panicked? then Crashed else Refused(outcome.why)
  }

  lemma {:induction false} SeenStops(
    text: Text, rows: Rows, ids: set<string>, part: set<string>, seen: seq<string>, ms: seq<Value>, r: Rows, count: nat,
    id: string)
    requires Seen(text, rows, part, seen, ms, r, count) && part <= ids && id in ids && id !in part && id in rows
    requires !MutateAll(text, rows[id], ms).Mutated?
    ensures MayEnd(text, rows, ids, ms, Stop(MutateAll(text, rows[id], ms)))
  {
    hide MutateAll, Verdict, Enumerates, MutatedRows;
    StopsAt(text, rows, ids, seen, part, id, ms);
  }

  /** Mutations of every matching row. The first one that does not go through stops the loop and leaves
      the rows visited before it, and part of its own row, changed. */
  method MutateIn(text: Text, rows: Rows, conds: seq<Value>, ms: seq<Value>) returns (r: Rows, how: MutateResult)
    ensures r.Keys == rows.Keys
    ensures MayEnd(text, rows, Matched(text, rows, conds), ms, how)
    ensures how.Counted? ==>
              how.count == |Matched(text, rows, conds)| &&
              r == MutatedRows(text, rows, Matched(text, rows, conds), ms)
  {
    hide MatchWhere, Matched, MutatedRows, MutateAll, MayEnd, Seen, Stop;
    r := rows;
    var count := 0;
    ghost var all := Matched(text, rows, conds);
    ghost var seen: seq<string> := [];
    var todo := rows.Keys;
    NothingSeen(text, rows, ms);
    MatchedHas(text, rows, conds, "");
    assert all - todo == {};
    while todo != {}
      invariant todo <= rows.Keys && all <= rows.Keys && r.Keys == rows.Keys
      invariant Seen(text, rows, all - todo, seen, ms, r, count)
    {
      var id :| id in todo;
      VisitOne(all, todo, id);
      MatchedHas(text, rows, conds, id);
      SeeOne(text, rows, all - todo, seen, ms, r, count, id);
      if MatchWhere(text, r[id], conds) {
        var outcome := MutateRow(text, r[id], ms);
        if !outcome.Mutated? {
          SeenStops(text, rows, all, all - todo, seen, ms, r, count, id);
          return r[id := outcome.row], Stop(outcome);
        }
        r := r[id := outcome.row];
        seen := seen + [id];
        count := count + 1;
      }
      todo := todo - {id};
    }
    assert all - {} == all;
    SeenAll(text, rows, all, seen, ms, r, count);
    return r, Counted(count);
  }

  class Store {
    const text: Text
    const newId: nat -> string
    var tables: Tables
    var issued: nat

    constructor (text: Text, newId: nat -> string, schema: set<string>)
      ensures this.text == text && this.newId == newId && issued == 0
      ensures tables == map t | t in schema :: map[]
      ensures WellFormed(tables)
    {
      this.text, this.newId, issued := text, newId, 0;
      tables := map t | t in schema :: map[];
    }

    /** A new row under a new id, which it carries as its uuid. */
    method Insert(table: string, row: Row) returns (id: Option<string>)
      modifies this
      ensures table !in old(tables) ==> id == None && tables == old(tables) && issued == old(issued)
      ensures table in old(tables) ==>
                && id == Some(newId(old(issued))) && issued == old(issued) + 1
                && tables == old(tables)[table := old(tables)[table][id.value := row["_uuid" := UuidRef(id.value)]]]
    {
      if table !in tables {
        return None;
      }
      var minted := newId(issued);
      issued := issued + 1;
      var stored := row["_uuid" := UuidRef(minted)];
      tables := tables[table := tables[table][minted := stored]];
      return Some(minted);
    }

    /** Copies of the matching rows, with the ids they are stored under. */
    method Select(table: string, conds: seq<Value>) returns (rows: Option<seq<Row>>, ghost ids: seq<string>)
      ensures table !in tables ==> rows == None && ids == []
      ensures table in tables ==>
                && rows.Some? && Enumerates(ids, Matched(text, tables[table], conds))
                && Shows(tables[table], ids, rows.value)
    {
      if table !in tables {
        return None, [];
      }
      var found, seen := SelectIn(text, tables[table], conds);
      return Some(found), seen;
    }

    method Update(table: string, conds: seq<Value>, values: Row) returns (count: Option<nat>)
      modifies this`tables
      ensures table !in old(tables) ==> count == None && tables == old(tables)
      ensures table in old(tables) ==>
                var ids := Matched(text, old(tables)[table], conds);
                && count == Some(|ids|)
                && tables == old(tables)[table := UpdatedRows(old(tables)[table], ids, values)]
    {
      if table !in tables {
        return None;
      }
      var rows, n := UpdateIn(text, tables[table], conds, values);
      tables := tables[table := rows];
      return Some(n);
    }

    method Delete(table: string, conds: seq<Value>) returns (count: Option<nat>)
      modifies this`tables
      ensures table !in old(tables) ==> count == None && tables == old(tables)
      ensures table in old(tables) ==>
                var ids := Matched(text, old(tables)[table], conds);
                && count == Some(|ids|)
                && tables == old(tables)[table := old(tables)[table] - ids]
    {
      if table !in tables {
        return None;
      }
      var rows, n := DeleteIn(text, tables[table], conds);
      tables := tables[table := rows];
      return Some(n);
    }

    method Mutate(table: string, conds: seq<Value>, ms: seq<Value>) returns (r: MutateResult)
      modifies this`tables
      ensures table !in old(tables) ==> r == Refused(UnknownTable) && tables == old(tables)
      ensures table in old(tables) ==>
                var rows, ids := old(tables)[table], Matched(text, old(tables)[table], conds);
                && table in tables && tables == old(tables)[table := tables[table]]
                && MayEnd(text, rows, ids, ms, r)
                && (r.Counted? ==> r.count == |ids| && tables[table] == MutatedRows(text, rows, ids, ms))
    {
      hide MatchWhere, MutatedRows, MutateAll, MayEnd, Matched;
      if table !in tables {
        return Refused(UnknownTable);
      }
      var rows, how := MutateIn(text, tables[table], conds, ms);
      tables := tables[table := rows];
      return how;
    }

    method GetRow(table: string, id: string) returns (row: Option<Row>)
      ensures row == Cell(tables, table, id)
    {
      if table !in tables {
        return None;
      }
      if id !in tables[table] {
        return None;
      }
      return Some(tables[table][id]);
    }

    method AllRows(table: string) returns (rows: Option<Rows>)
      ensures rows == if table in tables then Some(tables[table]) else None
    {
      if table !in tables {
        return None;
      }
      return Some(tables[table]);
    }
  }
}
