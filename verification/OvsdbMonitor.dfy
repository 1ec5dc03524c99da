/** Monitors: what a registered client holds against what the store holds, over whole runs in which
    transactions, registrations, cancellations and the sending of notifications interleave. */
module OvsdbMonitor {
  import opened Basics
  import opened OvsdbValues
  import opened OvsdbLaws
  import opened OvsdbLog

  /** Tables a client watches, and the columns of each; no columns means all. */
  type Requests = map<string, seq<string>>

  /** A client and one of its monitors. */
  type Key = (string, string)

  /** A row in an update notification. */
  datatype RowUpdate = RowUpdate(oldRow: Option<Row>, newRow: Option<Row>)

  function UpdateFor(ch: Change, columns: seq<string>): RowUpdate
  {
    match ch
    case Inserted(_, _, newRow) => RowUpdate(None, Some(FilterColumns(newRow, columns)))
    case Updated(_, _, oldRow, newRow) =>
      RowUpdate(Some(FilterColumns(oldRow, columns)), Some(FilterColumns(newRow, columns)))
    case Deleted(_, _, oldRow) => RowUpdate(Some(FilterColumns(oldRow, columns)), None)
  }

  /** A client takes the new row of an update, or drops the row if there is none. */
  function Absorb(view: Tables, table: string, uuid: string, u: RowUpdate): Tables
  {
    if table in view then view[table := PutRow(view[table], uuid, u.newRow)] else view
  }

  /** What one change does to a client that watches these tables. */
  function Receive(view: Tables, reqs: Requests, ch: Change): Tables
  {
    if ch.table in reqs then Absorb(view, ch.table, ch.uuid, UpdateFor(ch, reqs[ch.table])) else view
  }

  function ReceiveAll(view: Tables, reqs: Requests, log: seq<Change>): Tables
    decreases |log|
  {
    if log == [] then view else ReceiveAll(Receive(view, reqs, log[0]), reqs, log[1..])
  }

  function ProjectRows(rows: Rows, columns: seq<string>): Rows
  {
    map id | id in rows :: FilterColumns(rows[id], columns)
  }

  /** The watched tables with their watched columns. */
  function Project(tables: Tables, reqs: Requests): Tables
  {
    map t | t in reqs && t in tables :: ProjectRows(tables[t], reqs[t])
  }

  lemma ProjectPut(rows: Rows, columns: seq<string>, id: string, row: Option<Row>)
    ensures ProjectRows(PutRow(rows, id, row), columns) ==
            PutRow(ProjectRows(rows, columns), id, if row.Some? then Some(FilterColumns(row.value, columns)) else None)
  {
    hide FilterColumns;
  }

  /** Projecting a changed store is sending the change to the projection. */
  lemma {:induction false} ProjectPatch(tables: Tables, reqs: Requests, ch: Change)
    ensures Project(Patch(tables, ch), reqs) == Receive(Project(tables, reqs), reqs, ch)
  {
    hide FilterColumns, ProjectRows, PutRow;
    if ch.table in tables && ch.table in reqs {
      ProjectPut(tables[ch.table], reqs[ch.table], ch.uuid, Written(ch));
    }
  }

  lemma {:induction false} ProjectReplay(tables: Tables, reqs: Requests, log: seq<Change>)
    ensures Project(Replay(tables, log), reqs) == ReceiveAll(Project(tables, reqs), reqs, log)
    decreases |log|
  {
    hide Project, Receive, Patch;
    if log != [] {
      ProjectPatch(tables, reqs, log[0]);
      ProjectReplay(Patch(tables, log[0]), reqs, log[1..]);
    }
  }

  // ---- The run -----------------------------------------------------------------------------------------

  /** The store, the registrations, which of them were confirmed to their client, what each client holds,
      and the changes committed but not yet sent out. */
  datatype World = World(
    tables: Tables, regs: map<Key, Requests>, live: set<Key>, views: map<Key, Tables>, pending: seq<Change>)

  datatype Event =
    | Register(key: Key, reqs: Requests)
    | Cancel(key: Key)
    | RemoveClient(client: string)
    | Commit(log: seq<Change>)
    | Deliver

  /** Registration is confirmed only if every requested table exists. */
  predicate Confirmed(tables: Tables, reqs: Requests)
  {
    forall t :: t in reqs ==> t in tables
  }

  /** The initial dump: requested tables that have rows. */
  function Dump(tables: Tables, reqs: Requests): Tables
  {
    map t | t in reqs && t in tables && tables[t] != map[] :: ProjectRows(tables[t], reqs[t])
  }

  /** What a client starts from: the dump, with the tables it leaves out taken as empty. */
  function Opening(reqs: Requests, dump: Tables): Tables
  {
    map t | t in reqs :: if t in dump then dump[t] else map[]
  }

  /** Each client with a registration receives the change. */
  function Delivered(views: map<Key, Tables>, regs: map<Key, Requests>, ch: Change): map<Key, Tables>
  {
    map k | k in views :: if k in regs then Receive(views[k], regs[k], ch) else views[k]
  }

  function Of(client: string, keys: set<Key>): set<Key>
  {
    set k | k in keys && k.0 == client
  }

  function Step(w: World, e: Event): World
  {
    match e
    case Register(key, reqs) =>
      if Confirmed(w.tables, reqs) then
        w.(regs := w.regs[key := reqs], live := w.live + {key},
           views := w.views[key := Opening(reqs, Dump(w.tables, reqs))])
      else
        w.(regs := w.regs[key := reqs], live := w.live - {key})
    case Cancel(key) => w.(regs := w.regs - {key}, live := w.live - {key})
    case RemoveClient(client) => w.(regs := w.regs - Of(client, w.regs.Keys), live := w.live - Of(client, w.live))
    case Commit(log) => w.(tables := Replay(w.tables, log), pending := log)
    case Deliver =>
      if w.pending == [] then w
      else w.(views := Delivered(w.views, w.regs, w.pending[0]), pending := w.pending[1..])
  }

  /** One writer at a time: a transaction commits only when the last one has been sent out. */
  predicate Allowed(w: World, e: Event)
  {
    e.Commit? ==> w.pending == []
  }

  function Run(w: World, es: seq<Event>): World
    decreases |es|
  {
    if es == [] then w else Run(Step(w, es[0]), es[1..])
  }

  predicate AllowedRun(w: World, es: seq<Event>)
    decreases |es|
  {
    es == [] || (Allowed(w, es[0]) && AllowedRun(Step(w, es[0]), es[1..]))
  }

  /** What a client holds, together with what is still to be sent to it, is the projection of the store. */
  predicate InSync(w: World, k: Key)
    requires k in w.regs && k in w.views
  {
    ReceiveAll(w.views[k], w.regs[k], w.pending) == Project(w.tables, w.regs[k])
  }

  ghost predicate Synced(w: World)
  {
    && w.live <= w.regs.Keys && w.live <= w.views.Keys
    && Settled(w.tables, w.pending)
    && forall k :: k in w.live ==> Confirmed(w.tables, w.regs[k]) && InSync(w, k)
  }

  lemma {:induction false} OpeningIsProjection(tables: Tables, reqs: Requests)
    requires Confirmed(tables, reqs)
    ensures Opening(reqs, Dump(tables, reqs)) == Project(tables, reqs)
  {
    hide FilterColumns;
    forall t | t in reqs
      ensures Opening(reqs, Dump(tables, reqs))[t] == ProjectRows(tables[t], reqs[t])
    {
      if tables[t] == map[] {
        assert ProjectRows(tables[t], reqs[t]) == map[];
      }
    }
  }

  /** A client that registers now, with changes still on their way, is in sync: what it is sent again
      changes nothing. */
  lemma {:induction false} RegisterInSync(tables: Tables, reqs: Requests, pending: seq<Change>)
    requires Confirmed(tables, reqs) && Settled(tables, pending)
    ensures ReceiveAll(Opening(reqs, Dump(tables, reqs)), reqs, pending) == Project(tables, reqs)
  {
    hide Opening, Dump, Project, ReceiveAll, Replay;
    OpeningIsProjection(tables, reqs);
    ProjectReplay(tables, reqs, pending);
    assert pending[0..] == pending;
  }

  lemma {:induction false} SettledTail(tables: Tables, log: seq<Change>)
    requires Settled(tables, log) && log != []
    ensures Settled(tables, log[1..])
  {
    hide Replay;
    forall k | 0 <= k <= |log[1..]|
      ensures Replay(tables, log[1..][k..]) == tables
    {
      assert log[1..][k..] == log[k + 1..];
    }
  }

  lemma {:induction false} SyncedCommit(w: World, log: seq<Change>)
    requires Synced(w) && w.pending == []
    ensures Synced(Step(w, Commit(log)))
  {
    hide Project, Replay, Receive;
    LateReplay(w.tables, log);
    ReplayTables(w.tables, log);
    hide Settled;
    var w' := Step(w, Commit(log));
    forall k | k in w'.live
      ensures Confirmed(w'.tables, w'.regs[k]) && InSync(w', k)
    {
      assert Confirmed(w.tables, w.regs[k]);
      assert InSync(w, k);
      ProjectReplay(w.tables, w.regs[k], log);
    }
  }

  lemma {:induction false} SyncedDeliver(w: World)
    requires Synced(w) && w.pending != []
    ensures Synced(Step(w, Deliver))
  {
    SettledTail(w.tables, w.pending);
    hide Project, Replay, Receive, Settled;
    var w' := Step(w, Deliver);
    forall k | k in w'.live
      ensures Confirmed(w'.tables, w'.regs[k]) && InSync(w', k)
    {
      assert Confirmed(w.tables, w.regs[k]) && InSync(w, k);
    }
  }

  lemma {:induction false} SyncedRegister(w: World, key: Key, reqs: Requests)
    requires Synced(w)
    ensures Synced(Step(w, Register(key, reqs)))
  {
    if Confirmed(w.tables, reqs) {
      RegisterInSync(w.tables, reqs, w.pending);
    }
    hide Project, Replay, Receive, ReceiveAll, Settled, Opening, Dump, Confirmed;
    var w' := Step(w, Register(key, reqs));
    forall k | k in w'.live
      ensures Confirmed(w'.tables, w'.regs[k]) && InSync(w', k)
    {
      assert k != key ==> Confirmed(w.tables, w.regs[k]) && InSync(w, k);
    }
  }

  lemma {:induction false} SyncedStep(w: World, e: Event)
    requires Synced(w) && Allowed(w, e)
    ensures Synced(Step(w, e))
  {
    hide Project, Replay, Receive, ReceiveAll, Settled;
    match e
    case Register(key, reqs) => SyncedRegister(w, key, reqs);
    case Commit(log) => SyncedCommit(w, log);
    case Deliver =>
      if w.pending != [] {
        SyncedDeliver(w);
      }
    case Cancel(key) =>
      var w' := Step(w, e);
      forall k | k in w'.live
        ensures Confirmed(w'.tables, w'.regs[k]) && InSync(w', k)
      {
        assert Confirmed(w.tables, w.regs[k]) && InSync(w, k);
      }
    case RemoveClient(client) =>
      var w' := Step(w, e);
      forall k | k in w'.live
        ensures Confirmed(w'.tables, w'.regs[k]) && InSync(w', k)
      {
        assert Confirmed(w.tables, w.regs[k]) && InSync(w, k);
      }
  }

  lemma {:induction false} SyncedRun(w: World, es: seq<Event>)
    requires Synced(w) && AllowedRun(w, es)
    ensures Synced(Run(w, es))
    decreases |es|
  {
    hide Step, Synced, Allowed;
    if es != [] {
      SyncedStep(w, es[0]);
      SyncedRun(Step(w, es[0]), es[1..]);
    }
  }

  /** What a client holds of a store, place by place: the rows of every table it watches, of each row the columns
      it asked for that the row has, and the uuid; all columns where it asked for none. */
  ghost predicate Shows(view: Tables, tables: Tables, reqs: Requests)
  {
    && view.Keys == reqs.Keys
    && forall t :: t in reqs ==>
         && t in tables && view[t].Keys == tables[t].Keys
         && forall id :: id in tables[t] ==> RowShown(view[t][id], tables[t][id], reqs[t])
  }

  ghost predicate RowShown(shown: Row, row: Row, columns: seq<string>)
  {
    && (forall c :: c in shown <==> c in row && (columns == [] || c in columns || c == "_uuid"))
    && (forall c :: c in shown ==> shown[c] == row[c])
  }

  lemma {:induction false} RowsShown(rows: Rows, columns: seq<string>)
    ensures ProjectRows(rows, columns).Keys == rows.Keys
    ensures forall id :: id in rows ==> RowShown(ProjectRows(rows, columns)[id], rows[id], columns)
  {
    hide FilterColumns, RowShown;
    forall id | id in rows
      ensures RowShown(ProjectRows(rows, columns)[id], rows[id], columns)
    {
      FilterShows(rows[id], columns);
    }
  }

  lemma FilterShows(row: Row, columns: seq<string>)
    ensures RowShown(FilterColumns(row, columns), row, columns)
  {
    FilterCells(row, columns);
  }

  /** The projection, place by place. */
  lemma {:induction false} ProjectShows(tables: Tables, reqs: Requests)
    requires Confirmed(tables, reqs)
    ensures Shows(Project(tables, reqs), tables, reqs)
  {
    hide ProjectRows, RowShown;
    forall t | t in reqs
      ensures ProjectRows(tables[t], reqs[t]).Keys == tables[t].Keys
      ensures forall id :: id in tables[t] ==> RowShown(ProjectRows(tables[t], reqs[t])[id], tables[t][id], reqs[t])
    {
      RowsShown(tables[t], reqs[t]);
    }
  }

  /** Monitor views: over every run of registrations, cancellations, disconnects, commits and deliveries, in
      any order with one writer at a time, every confirmed client holds exactly the column-filtered
      projection of its tables whenever nothing is left to send, and at any other time it will once it has
      received what is pending. A client may register in the middle of a transaction's notifications. */
  lemma {:induction false} MonitorViews(tables: Tables, es: seq<Event>, k: Key)
    requires AllowedRun(World(tables, map[], {}, map[], []), es)
    requires k in Run(World(tables, map[], {}, map[], []), es).live
    ensures
      var w := Run(World(tables, map[], {}, map[], []), es);
      && k in w.regs && k in w.views
      && ReceiveAll(w.views[k], w.regs[k], w.pending) == Project(w.tables, w.regs[k])
      && (w.pending == [] ==> w.views[k] == Project(w.tables, w.regs[k]))
      && (w.pending == [] ==>
            && w.views[k].Keys == w.regs[k].Keys
            && forall t :: t in w.regs[k] ==>
                 && t in w.tables && w.views[k][t].Keys == w.tables[t].Keys
                 && forall id :: id in w.tables[t] ==>
                      && (forall c :: c in w.views[k][t][id] <==>
                            c in w.tables[t][id] && (w.regs[k][t] == [] || c in w.regs[k][t] || c == "_uuid"))
                      && (forall c :: c in w.views[k][t][id] ==> w.views[k][t][id][c] == w.tables[t][id][c]))
  {
    hide Project, Receive, Step;
    var start := World(tables, map[], {}, map[], []);
    assert Settled(tables, []) by {
      EmptyLog(tables);
    }
    SyncedRun(start, es);
    var w := Run(start, es);
    assert Confirmed(w.tables, w.regs[k]) && InSync(w, k);
    if w.pending == [] {
      ProjectShows(w.tables, w.regs[k]);
      hide Run;
      assert Shows(w.views[k], w.tables, w.regs[k]);
      assert forall t, id :: t in w.regs[k] && id in w.tables[t] ==> RowShown(w.views[k][t][id], w.tables[t][id], w.regs[k][t]);
    }
  }

  /** The event is not about this monitor. */
  predicate Elsewhere(e: Event, k: Key)
  {
    && (e.Register? || e.Cancel? ==> e.key != k)
    && (e.RemoveClient? ==> e.client != k.0)
  }

  lemma {:induction false} ElsewhereKeeps(w: World, e: Event, k: Key)
    requires k in w.live && k in w.regs && Elsewhere(e, k)
    ensures k in Step(w, e).live && k in Step(w, e).regs && Step(w, e).regs[k] == w.regs[k]
  {
    hide Receive, Delivered, Replay, Dump, Opening;
  }

  lemma {:induction false} ElsewhereRun(w: World, es: seq<Event>, k: Key)
    requires k in w.live && k in w.regs && forall e :: e in es ==> Elsewhere(e, k)
    ensures k in Run(w, es).live && k in Run(w, es).regs && Run(w, es).regs[k] == w.regs[k]
    decreases |es|
  {
    hide Step, Elsewhere;
    if es != [] {
      assert Elsewhere(es[0], k);
      ElsewhereKeeps(w, es[0], k);
      ElsewhereRun(Step(w, es[0]), es[1..], k);
    }
  }

  lemma {:induction false} RunJoins(w: World, es: seq<Event>, fs: seq<Event>)
    ensures Run(w, es + fs) == Run(Run(w, es), fs)
    ensures AllowedRun(w, es + fs) <==> AllowedRun(w, es) && AllowedRun(Run(w, es), fs)
    decreases |es|
  {
    hide Step, Allowed;
    if es == [] {
      assert es + fs == fs;
    } else {
      assert (es + fs)[1..] == es[1..] + fs;
      RunJoins(Step(w, es[0]), es[1..], fs);
    }
  }

  /** From registration on: a client that asks for tables that exist is registered for what it asked, until it
      cancels, disconnects or registers again, and whenever nothing is left to send it holds exactly that. */
  lemma {:induction false} ClientSees(tables: Tables, es: seq<Event>, k: Key, reqs: Requests, fs: seq<Event>)
    requires AllowedRun(World(tables, map[], {}, map[], []), es + [Register(k, reqs)] + fs)
    requires forall t :: t in reqs ==> t in Run(World(tables, map[], {}, map[], []), es).tables
    requires forall e :: e in fs ==> Elsewhere(e, k)
    ensures
      var w := Run(World(tables, map[], {}, map[], []), es + [Register(k, reqs)] + fs);
      && k in w.regs && w.regs[k] == reqs && k in w.views
      && (w.pending == [] ==> Shows(w.views[k], w.tables, reqs))
  {
    hide Project, Receive, Elsewhere, Step;
    var start := World(tables, map[], {}, map[], []);
    RunJoins(start, es, [Register(k, reqs)]);
    RunJoins(start, es + [Register(k, reqs)], fs);
    var w := Run(start, es);
    assert [Register(k, reqs)][1..] == [];
    assert Run(w, [Register(k, reqs)]) == Run(Step(w, Register(k, reqs)), []);
    RegisterConfirms(w, k, reqs);
    ElsewhereRun(Step(w, Register(k, reqs)), fs, k);
    assert Settled(tables, []) by {
      EmptyLog(tables);
    }
    SyncedRun(start, es + [Register(k, reqs)] + fs);
    var w' := Run(start, es + [Register(k, reqs)] + fs);
    hide Run;
    assert Confirmed(w'.tables, w'.regs[k]) && InSync(w', k);
    ProjectShows(w'.tables, w'.regs[k]);
  }

  /** What a registration does: it is recorded in any case, confirmed only if every table asked for exists, and
      nothing else changes but what that client holds. */
  lemma {:induction false} RegisterConfirms(w: World, k: Key, reqs: Requests)
    ensures
      var w' := Step(w, Register(k, reqs));
      && w'.regs == w.regs[k := reqs] && w'.tables == w.tables && w'.pending == w.pending
      && (k in w'.live <==> forall t :: t in reqs ==> t in w.tables)
      && w'.live - {k} == w.live - {k}
  {
    hide Dump, Opening;
  }

  /** What ends a registration, and what a commit and a delivery leave. */
  lemma {:induction false} OtherEvents(w: World, k: Key, client: string, log: seq<Change>)
    ensures
      var w' := Step(w, Cancel(k));
      w'.regs.Keys == w.regs.Keys - {k} && w'.live == w.live - {k} && w'.tables == w.tables && w'.pending == w.pending
    ensures
      var w' := Step(w, RemoveClient(client));
      && (forall j :: j in w'.regs <==> j in w.regs && j.0 != client)
      && (forall j :: j in w'.live <==> j in w.live && j.0 != client)
      && w'.tables == w.tables && w'.pending == w.pending
    ensures
      var w' := Step(w, Commit(log));
      w'.regs == w.regs && w'.live == w.live && w'.tables == Replay(w.tables, log) && w'.pending == log
    ensures
      var w' := Step(w, Deliver);
      && w'.regs == w.regs && w'.live == w.live && w'.tables == w.tables
      && w'.pending == if w.pending == [] then [] else w.pending[1..]
  {
    hide Delivered, Replay;
  }

  /** Where nothing is pending, being in sync is holding exactly the projection. */
  lemma {:induction false} SyncedViews(w: World)
    requires Synced(w) && w.pending == []
    ensures forall k :: k in w.live ==> k in w.views && k in w.regs && w.views[k] == Project(w.tables, w.regs[k])
  {
    hide Project, Receive, Settled;
    forall k | k in w.live
      ensures k in w.views && k in w.regs && w.views[k] == Project(w.tables, w.regs[k])
    {
      assert InSync(w, k);
    }
  }
}
