/** The monitor manager and the server's request handling, proved to take the steps of OvsdbMonitor. */
module OvsdbServer {
  import opened Basics
  import opened OvsdbValues
  import opened OvsdbLaws
  import opened OvsdbLog
  import opened OvsdbStore
  import opened OvsdbTransact
  import opened OvsdbOutcomes
  import opened OvsdbMonitor

  type Monitors = map<string, map<string, Requests>>

  function Keys(monitors: Monitors): set<Key>
  {
    set c, m | c in monitors && m in monitors[c] :: (c, m)
  }

  /** The registrations, one per client and monitor. */
  function Regs(monitors: Monitors): map<Key, Requests>
  {
    map k | k in Keys(monitors) :: monitors[k.0][k.1]
  }

  function PutMonitor(monitors: Monitors, c: string, m: string, reqs: Requests): Monitors
  {
    monitors[c := (if c in monitors then monitors[c] else map[])[m := reqs]]
  }

  function DropMonitor(monitors: Monitors, c: string, m: string): Monitors
    requires c in monitors
  {
    var rest := monitors[c] - {m};
    if rest == map[] then monitors - {c} else monitors[c := rest]
  }

  lemma KeysHas(monitors: Monitors, k: Key)
    ensures k in Keys(monitors) <==> k.0 in monitors && k.1 in monitors[k.0]
  {
    assert k == (k.0, k.1);
  }

  lemma {:induction false} RegsPut(monitors: Monitors, c: string, m: string, reqs: Requests)
    ensures Regs(PutMonitor(monitors, c, m, reqs)) == Regs(monitors)[(c, m) := reqs]
  {
    hide Keys;
    var after := PutMonitor(monitors, c, m, reqs);
    forall k: Key
      ensures k in Keys(after) <==> k in Keys(monitors) || k == (c, m)
      ensures k in Keys(after) ==> k.0 in after && k.1 in after[k.0]
      ensures k in Keys(monitors) ==> k.0 in monitors && k.1 in monitors[k.0]
    {
      KeysHas(after, k);
      KeysHas(monitors, k);
    }
  }

  lemma {:induction false} RegsDrop(monitors: Monitors, c: string, m: string)
    requires c in monitors
    ensures Regs(DropMonitor(monitors, c, m)) == Regs(monitors) - {(c, m)}
  {
    hide Keys;
    var after := DropMonitor(monitors, c, m);
    forall k: Key
      ensures k in Keys(after) <==> k in Keys(monitors) && k != (c, m)
      ensures k in Keys(after) ==> k.0 in after && k.1 in after[k.0] && after[k.0][k.1] == monitors[k.0][k.1]
    {
      KeysHas(after, k);
      KeysHas(monitors, k);
      if k in Keys(monitors) && k.0 == c && k.1 != m {
        assert k.1 in monitors[c] - {m};
      }
    }
  }

  lemma RegsDropClient(monitors: Monitors, c: string)
    ensures Regs(monitors - {c}) == Regs(monitors) - Of(c, Regs(monitors).Keys)
  {
    forall k: Key
      ensures k in Keys(monitors - {c}) <==> k in Keys(monitors) && k.0 != c
    {
      assert k == (k.0, k.1);
    }
  }

  /** A notification on its way to a client. */
  datatype Notice = Notice(key: Key, table: string, uuid: string, update: RowUpdate)

  /** The notices of a list that go to one monitor. */
  function SentTo(notices: seq<Notice>, k: Key): seq<Notice>
  {
    if notices == [] then []
    else
      var last := notices[|notices| - 1];
      SentTo(notices[..|notices| - 1], k) + if last.key == k then [last] else []
  }

  lemma SentOne(notices: seq<Notice>, n: Notice, k: Key)
    ensures SentTo(notices + [n], k) == SentTo(notices, k) + if n.key == k then [n] else []
  {
    assert (notices + [n])[..|notices|] == notices;
  }

  /** What a registration is due for a change: one notice if it watches the table, none otherwise. */
  function Due(k: Key, reqs: Requests, ch: Change): seq<Notice>
  {
    if ch.table in reqs then [Notice(k, ch.table, ch.uuid, UpdateFor(ch, reqs[ch.table]))] else []
  }

  /** A notice, place by place: it names the changed row, and of the old and new rows it shows the columns asked
      for that they have, and the uuid; an insert has no old row and a delete no new one. */
  lemma {:induction false} NoticeShows(k: Key, reqs: Requests, ch: Change)
    requires ch.table in reqs
    ensures |Due(k, reqs, ch)| == 1
    ensures
      var n := Due(k, reqs, ch)[0];
      && n.key == k && n.table == ch.table && n.uuid == ch.uuid
      && (n.update.oldRow.None? <==> ch.Inserted?) && (n.update.newRow.None? <==> ch.Deleted?)
      && (!ch.Inserted? ==> RowShown(n.update.oldRow.value, ch.oldRow, reqs[ch.table]))
      && (!ch.Deleted? ==> RowShown(n.update.newRow.value, ch.newRow, reqs[ch.table]))
  {
    hide FilterColumns, RowShown;
    if !ch.Inserted? {
      FilterShows(ch.oldRow, reqs[ch.table]);
    }
    if !ch.Deleted? {
      FilterShows(ch.newRow, reqs[ch.table]);
    }
  }

  /** The views after every registration outside `todo` has received the change. */
  function PartlyDelivered(
    views: map<Key, Tables>, regs: map<Key, Requests>, ch: Change, todo: set<Key>): map<Key, Tables>
  {
    map k | k in views :: if k in regs && k !in todo then Receive(views[k], regs[k], ch) else views[k]
  }

  lemma DeliverOne(views: map<Key, Tables>, regs: map<Key, Requests>, ch: Change, todo: set<Key>, k: Key)
    requires k in todo && k in regs
    ensures
      var now := PartlyDelivered(views, regs, ch, todo);
      PartlyDelivered(views, regs, ch, todo - {k}) == if k in now then now[k := Receive(now[k], regs[k], ch)] else now
  {
    hide Receive;
  }

  /** Every registration outside `todo` has been sent what it is due, and nobody has been sent anything else. */
  ghost predicate SentSoFar(batch: seq<Notice>, regs: map<Key, Requests>, ch: Change, todo: set<Key>)
  {
    forall k: Key :: SentTo(batch, k) == if k in regs && k !in todo then Due(k, regs[k], ch) else []
  }

  lemma {:induction false} SentDue(batch: seq<Notice>, k: Key, reqs: Requests, ch: Change, j: Key)
    ensures SentTo(batch + Due(k, reqs, ch), j) == SentTo(batch, j) + if j == k then Due(k, reqs, ch) else []
  {
    hide UpdateFor, SentTo;
    if ch.table in reqs {
      SentOne(batch, Notice(k, ch.table, ch.uuid, UpdateFor(ch, reqs[ch.table])), j);
    } else {
      assert batch + [] == batch;
    }
  }

  lemma {:induction false} SendMore(batch: seq<Notice>, regs: map<Key, Requests>, ch: Change, todo: set<Key>, k: Key)
    requires SentSoFar(batch, regs, ch, todo) && k in todo && k in regs
    ensures SentSoFar(batch + Due(k, regs[k], ch), regs, ch, todo - {k})
  {
    hide Due, SentTo;
    var due := Due(k, regs[k], ch);
    forall j: Key
      ensures SentTo(batch + due, j) == if j in regs && j !in todo - {k} then Due(j, regs[j], ch) else []
    {
      SentDue(batch, k, regs[k], ch, j);
      assert SentTo(batch, j) + [] == SentTo(batch, j);
    }
  }

  lemma DumpMore(tables: Tables, reqs: Requests, todo: set<string>, t: string)
    requires t in todo && t in reqs && t in tables
    ensures Dump(tables, reqs - (todo - {t})) ==
            if tables[t] == map[] then Dump(tables, reqs - todo)
            else Dump(tables, reqs - todo)[t := ProjectRows(tables[t], reqs[t])]
    ensures Confirmed(tables, reqs - todo) ==> Confirmed(tables, reqs - (todo - {t}))
  {
    hide ProjectRows;
  }

  /** The answer to a registration, place by place: a dump if every table asked for exists, and then those that
      have rows, with every row and of each row the columns asked for. */
  ghost predicate Answers(dump: Option<Tables>, tables: Tables, reqs: Requests)
  {
    && (dump.Some? <==> forall t :: t in reqs ==> t in tables)
    && (dump.Some? ==>
          && (forall t :: t in dump.value <==> t in reqs && t in tables && tables[t] != map[])
          && (forall t, id :: t in dump.value ==>
                && (id in dump.value[t] <==> id in tables[t])
                && (id in tables[t] ==> RowShown(dump.value[t][id], tables[t][id], reqs[t]))))
  }

  lemma {:induction false} DumpAnswers(tables: Tables, reqs: Requests)
    ensures Answers(if Confirmed(tables, reqs) then Some(Dump(tables, reqs)) else None, tables, reqs)
  {
    hide ProjectRows, RowShown;
    forall t | t in reqs && t in tables
      ensures ProjectRows(tables[t], reqs[t]).Keys == tables[t].Keys
      ensures forall id :: id in tables[t] ==> RowShown(ProjectRows(tables[t], reqs[t])[id], tables[t][id], reqs[t])
    {
      RowsShown(tables[t], reqs[t]);
    }
  }

  /** The initial dump, table by table, or nothing at the first table that does not exist. */
  method BuildDump(store: Store, reqs: Requests) returns (dump: Option<Tables>)
    ensures dump == if Confirmed(store.tables, reqs) then Some(Dump(store.tables, reqs)) else None
    ensures Answers(dump, store.tables, reqs)
  {
    DumpAnswers(store.tables, reqs);
    var result: Tables := map[];
    var todo := reqs.Keys;
    assert reqs - todo == map[];
    assert Dump(store.tables, map[]) == map[] && Confirmed(store.tables, map[]);
    hide Dump, ProjectRows, Answers;
    while todo != {}
      invariant todo <= reqs.Keys
      invariant Confirmed(store.tables, reqs - todo) && result == Dump(store.tables, reqs - todo)
    {
      var t :| t in todo;
      var rows := store.AllRows(t);
      if rows.None? {
        return None;
      }
      DumpMore(store.tables, reqs, todo, t);
      if rows.value != map[] {
        result := result[t := ProjectRows(rows.value, reqs[t])];
      }
      todo := todo - {t};
    }
    assert reqs - {} == reqs;
    return Some(result);
  }

  class MonitorManager {
    var monitors: Monitors
    var sent: seq<Notice>
    ghost var live: set<Key>
    ghost var views: map<Key, Tables>

    ghost predicate Valid()
      reads this
    {
      live <= Regs(monitors).Keys
    }

    ghost function WorldOf(store: Store, pending: seq<Change>): World
      reads this, store
    {
      World(store.tables, Regs(monitors), live, views, pending)
    }

    /** Every confirmed client holds, together with what is still to be sent to it, the projection of the
        store. */
    ghost predicate Agrees(store: Store, pending: seq<Change>)
      reads this, store
    {
      Synced(WorldOf(store, pending))
    }

    /** Every confirmed client holds exactly the projection of the store. */
    ghost predicate UpToDate(store: Store)
      reads this, store
    {
      forall k :: k in live ==>
        k in views && k in Regs(monitors) && views[k] == Project(store.tables, Regs(monitors)[k])
    }

    constructor (ghost store: Store)
      ensures Valid() && monitors == map[] && sent == [] && live == {} && views == map[]
      ensures Agrees(store, [])
    {
      monitors, sent, live, views := map[], [], {}, map[];
      new;
      EmptyLog(store.tables);
    }

    /** Registers a monitor and answers with the initial dump. If a requested table does not exist the
        registration stays behind, but the client is told of an error. */
    method Register(client: string, monitor: string, reqs: Requests, store: Store, ghost pending: seq<Change>)
      returns (dump: Option<Tables>)
      requires Valid()
      modifies this
      ensures Valid() && sent == old(sent)
      ensures WorldOf(store, pending) == Step(old(WorldOf(store, pending)), Event.Register((client, monitor), reqs))
      ensures old(Agrees(store, pending)) ==> Agrees(store, pending)
      ensures dump == if Confirmed(store.tables, reqs) then Some(Dump(store.tables, reqs)) else None
      ensures Regs(monitors) == old(Regs(monitors))[(client, monitor) := reqs]
      ensures (client, monitor) in live <==> dump.Some?
      ensures Answers(dump, store.tables, reqs)
    {
      hide Regs, Opening, Dump, Confirmed, Synced, Answers;
      RegsPut(monitors, client, monitor, reqs);
      if Agrees(store, pending) {
        SyncedStep(WorldOf(store, pending), Event.Register((client, monitor), reqs));
      }
      monitors := PutMonitor(monitors, client, monitor, reqs);
      live := live - {(client, monitor)};
      dump := BuildDump(store, reqs);
      if dump.Some? {
        live := live + {(client, monitor)};
        views := views[(client, monitor) := Opening(reqs, dump.value)];
      }
    }

    /** Cancels a monitor, and forgets a client with its last one. */
    method Cancel(client: string, monitor: string, ghost store: Store, ghost pending: seq<Change>) returns (ok: bool)
      requires Valid()
      modifies this
      ensures Valid() && sent == old(sent)
      ensures ok <==> (client, monitor) in old(Regs(monitors))
      ensures WorldOf(store, pending) == Step(old(WorldOf(store, pending)), Event.Cancel((client, monitor)))
      ensures old(Agrees(store, pending)) ==> Agrees(store, pending)
    {
      hide Synced;
      if Agrees(store, pending) {
        SyncedStep(WorldOf(store, pending), Event.Cancel((client, monitor)));
      }
      assert (client, monitor) in Keys(monitors) <==> client in monitors && monitor in monitors[client];
      if client !in monitors {
        return false;
      }
      if monitor !in monitors[client] {
        return false;
      }
      RegsDrop(monitors, client, monitor);
      var rest := monitors[client] - {monitor};
      if rest == map[] {
        monitors := monitors - {client};
      } else {
        monitors := monitors[client := rest];
      }
      live := live - {(client, monitor)};
      return true;
    }

    method RemoveClient(client: string, ghost store: Store, ghost pending: seq<Change>)
      requires Valid()
      modifies this
      ensures Valid() && sent == old(sent)
      ensures WorldOf(store, pending) == Step(old(WorldOf(store, pending)), Event.RemoveClient(client))
      ensures old(Agrees(store, pending)) ==> Agrees(store, pending)
    {
      hide Synced;
      if Agrees(store, pending) {
        SyncedStep(WorldOf(store, pending), Event.RemoveClient(client));
      }
      RegsDropClient(monitors, client);
      monitors := monitors - {client};
      live := live - Of(client, live);
    }

    /** Sends one notification; the client applies it to what it holds. */
    method Send(n: Notice)
      modifies this`sent, this`views
      ensures sent == old(sent) + [n]
      ensures views == if n.key in old(views)
                       then old(views)[n.key := Absorb(old(views)[n.key], n.table, n.uuid, n.update)]
                       else old(views)
    {
      sent := sent + [n];
      if n.key in views {
        views := views[n.key := Absorb(views[n.key], n.table, n.uuid, n.update)];
      }
    }

    /** One registration's share of a notification. */
    method NotifyOne(k: Key, reqs: Requests, ch: Change)
      modifies this`sent, this`views
      ensures sent == old(sent) + Due(k, reqs, ch)
      ensures views == if k in old(views) then old(views)[k := Receive(old(views)[k], reqs, ch)] else old(views)
    {
      hide Absorb, UpdateFor;
      if ch.table in reqs {
        Send(Notice(k, ch.table, ch.uuid, UpdateFor(ch, reqs[ch.table])));
      } else {
        assert sent + [] == sent;
        assert k in views ==> views[k := views[k]] == views;
      }
    }

    /** Notifies every monitor that watches the changed table, in whatever order the maps yield them. */
    method Notify(ch: Change)
      requires Valid()
      modifies this`sent, this`views
      ensures views == Delivered(old(views), Regs(monitors), ch)
      ensures old(sent) <= sent
      ensures SentSoFar(sent[|old(sent)|..], Regs(monitors), ch, {})
    {
      hide Receive, Due, PartlyDelivered, Delivered, SentSoFar, Regs, Keys;
      ghost var regs, before := Regs(monitors), sent;
      ghost var batch: seq<Notice> := [];
      var todo := Keys(monitors);
      RegsKeys(monitors);
      NothingSent(views, regs, ch, todo);
      while todo != {}
        invariant todo <= regs.Keys && sent == before + batch
        invariant views == PartlyDelivered(old(views), regs, ch, todo)
        invariant SentSoFar(batch, regs, ch, todo)
      {
        var k :| k in todo;
        DeliverOne(old(views), regs, ch, todo, k);
        SendMore(batch, regs, ch, todo, k);
        RegsHas(monitors, k);
        var reqs := monitors[k.0][k.1];
        NotifyOne(k, reqs, ch);
        batch := batch + Due(k, reqs, ch);
        todo := todo - {k};
      }
      assert sent[|before|..] == batch;
      AllDelivered(old(views), regs, ch);
    }
  }

  lemma RegsKeys(monitors: Monitors)
    ensures Regs(monitors).Keys == Keys(monitors)
  {
  }

  lemma RegsHas(monitors: Monitors, k: Key)
    requires k in Regs(monitors)
    ensures k.0 in monitors && k.1 in monitors[k.0] && monitors[k.0][k.1] == Regs(monitors)[k]
  {
  }

  lemma NothingSent(views: map<Key, Tables>, regs: map<Key, Requests>, ch: Change, todo: set<Key>)
    requires regs.Keys == todo
    ensures PartlyDelivered(views, regs, ch, todo) == views && SentSoFar([], regs, ch, todo)
  {
  }

  lemma AllDelivered(views: map<Key, Tables>, regs: map<Key, Requests>, ch: Change)
    ensures PartlyDelivered(views, regs, ch, {}) == Delivered(views, regs, ch)
  {
    hide Receive;
  }

  // ---- Requests that change the store ----------------------------------------------------------------

  /** A commit and the first `n` deliveries of its log. */
  function Sending(log: seq<Change>, n: nat): seq<Event>
  {
    if n == 0 then [Commit(log)] else Sending(log, n - 1) + [Deliver]
  }

  lemma {:induction false} RunMore(w: World, es: seq<Event>, e: Event)
    ensures Run(w, es + [e]) == Step(Run(w, es), e)
    decreases |es|
  {
    hide Step;
    if es == [] {
      assert es + [e] == [e] && [e][1..] == [];
      assert Run(w, [e]) == Run(Step(w, e), []);
    } else {
      assert (es + [e])[1..] == es[1..] + [e];
      RunMore(Step(w, es[0]), es[1..], e);
    }
  }

  lemma {:induction false} RunCommit(w: World, log: seq<Change>)
    ensures Run(w, Sending(log, 0)) == w.(tables := Replay(w.tables, log), pending := log)
  {
    assert [Commit(log)][1..] == [];
    assert Run(w, [Commit(log)]) == Run(Step(w, Commit(log)), []);
  }

  /** The transact request: commit, then notify per change. A transaction that fails leaves the world as it
      was. One that commits with a log that is the difference takes the world through the commit of its log and
      the delivery of every change, and afterwards every confirmed client holds exactly the projection of the
      store if it was in sync before. On a well-formed store the log is the difference, and the store stays
      well-formed if no operation writes uuids. */
  method HandleTransact(mm: MonitorManager, store: Store, ops: seq<TransactOp>) returns (out: Outcome, log: seq<Change>)
    requires mm.Valid()
    modifies mm`sent, mm`views, store
    ensures mm.Valid()
    ensures Transacted(EnvOf(store), Tx(old(store.tables), map[], old(store.issued)), ops,
                       store.tables, store.issued, out, log)
    ensures out.Failed? ==> mm.WorldOf(store, []) == old(mm.WorldOf(store, []))
    ensures out.Committed? && Replay(old(store.tables), log) == store.tables ==>
              mm.WorldOf(store, []) == Run(old(mm.WorldOf(store, [])), Sending(log, |log|))
    ensures out.Committed? && Proper(EnvOf(store), old(store.tables), ops) ==>
              Replay(old(store.tables), log) == store.tables
    ensures old(mm.Agrees(store, [])) && (out.Committed? ==> Replay(old(store.tables), log) == store.tables) && !out.Crash? ==>
              mm.Agrees(store, []) && mm.UpToDate(store)
    ensures Proper(EnvOf(store), old(store.tables), ops) && NoneWritesUuid(ops) && !out.Crash? ==>
              WellFormed(store.tables)
  {
    hide Receive, Replay, Regs, Run, WellFormed, KeepsUuid, Settled, Synced, ExecAll, Project;
    ghost var w := mm.WorldOf(store, []);
    out, log := Transact(store, ops);
    ghost var tx := Tx(w.tables, map[], old(store.issued));
    if out.Committed? {
      if Proper(EnvOf(store), w.tables, ops) {
        LogIsDifference(EnvOf(store), tx, ops, store.tables, store.issued, out, log);
      }
      ghost var exact := Replay(w.tables, log) == store.tables;
      if exact {
        RunCommit(w, log);
        if Synced(w) {
          SendingSynced(w, log, |log|);
        }
      }
      hide Transacted;
      SendAll(mm, store, log, w, exact);
    } else if out.Failed? {
      FailedKeeps(EnvOf(store), tx, ops, store.tables, store.issued, out, log);
    }
    if Synced(mm.WorldOf(store, [])) {
      SyncedViews(mm.WorldOf(store, []));
    }
  }

  lemma FailedKeeps(
    env: Env, tx: Tx, ops: seq<TransactOp>, tables: Tables, issued: nat, out: Outcome, changes: seq<Change>)
    requires Transacted(env, tx, ops, tables, issued, out, changes) && out.Failed?
    ensures tables == tx.tables
  {
  }

  /** After a commit and all its deliveries nothing is pending and every confirmed client is in sync. */
  lemma {:induction false} SendingSynced(w: World, log: seq<Change>, n: nat)
    requires Synced(w) && w.pending == [] && n <= |log|
    ensures Synced(Run(w, Sending(log, n))) && Run(w, Sending(log, n)).pending == log[n..]
    decreases n
  {
    hide Synced, Run, Delivered;
    if n == 0 {
      RunCommit(w, log);
      SyncedStep(w, Commit(log));
    } else {
      SendingSynced(w, log, n - 1);
      RunMore(w, Sending(log, n - 1), Deliver);
      SyncedStep(Run(w, Sending(log, n - 1)), Deliver);
      assert log[n - 1..][1..] == log[n..];
    }
  }

  /** Sends out what was committed, one change after the other. */
  method SendAll(mm: MonitorManager, store: Store, log: seq<Change>, ghost w: World, ghost proper: bool)
    requires mm.Valid()
    requires proper ==> mm.WorldOf(store, log) == Run(w, Sending(log, 0))
    modifies mm`sent, mm`views
    ensures mm.Valid()
    ensures proper ==> mm.WorldOf(store, []) == Run(w, Sending(log, |log|))
  {
    hide Receive, Replay, Delivered, Regs, SentSoFar, Run;
    var i := 0;
    assert log[0..] == log;
    while i < |log|
      invariant 0 <= i <= |log|
      invariant mm.Valid()
      invariant proper ==> mm.WorldOf(store, log[i..]) == Run(w, Sending(log, i))
    {
      ghost var before := mm.WorldOf(store, log[i..]);
      RunMore(w, Sending(log, i), Deliver);
      assert log[i..][0] == log[i] && log[i..][1..] == log[i + 1..];
      mm.Notify(log[i]);
      assert mm.WorldOf(store, log[i + 1..]) == Step(before, Deliver);
      i := i + 1;
    }
  }

  // ---- Port state ---------------------------------------------------------------------------------------

  const PORTS := "Logical_Switch_Port"

  /** The condition that selects one row by its uuid. */
  function ByUuid(id: string): seq<Value>
  {
    [Arr([Str("_uuid"), Str("=="), UuidRef(id)])]
  }

  /** On a well-formed row the condition holds for exactly the row with that key. */
  lemma {:induction false} ByUuidMatches(text: Text, id: string, row: Row, wanted: string)
    requires RowFormed(id, row) && PlainText(text)
    ensures MatchWhere(text, row, ByUuid(wanted)) <==> id == wanted
  {
    BeforeIsOrder(id, wanted);
    hide Before;
    var cond := ByUuid(wanted)[0];
    assert Normalize(UuidRef(id)) == Str(id) && Normalize(UuidRef(wanted)) == Str(wanted);
    assert MatchOne(text, row, cond) <==> id == wanted;
  }

  /** Strings print as themselves. */
  ghost predicate PlainText(text: Text)
  {
    forall s: string :: text(Str(s)) == s
  }

  predicate HasPort(tables: Tables, port: string)
  {
    "Logical_Switch_Port" in tables && port in tables["Logical_Switch_Port"]
  }

  /** What setting a port does to one cluster: nothing if it does not have the port; otherwise, on a well-formed
      store, the commit and delivery of one change of the up column. Clients in sync stay in sync. */
  ghost predicate PortSet(text: Text, w: World, w': World, port: string, up: bool)
  {
    && (!HasPort(w.tables, port) ==> w' == w)
    && (HasPort(w.tables, port) && WellFormed(w.tables) && PlainText(text) ==>
          var ports := w.tables["Logical_Switch_Port"];
          var now := ports[port]["up" := Bool(up)];
          && w' == Run(w, Sending([Updated("Logical_Switch_Port", port, ports[port], now)], 1))
          && w'.tables == w.tables["Logical_Switch_Port" := ports[port := now]] && WellFormed(w'.tables))
    && (Synced(w) && WellFormed(w.tables) && PlainText(text) ==> Synced(w'))
  }

  /** A cluster has a store and a monitor manager of its own. */
  datatype Cluster = Cluster(monitors: MonitorManager, store: Store)
  {
    /** The world of the cluster with nothing left to send. */
    ghost function Here(): World
      reads monitors, store
    {
      monitors.WorldOf(store, [])
    }
  }

  /** One cluster: a store update and one notification, outside any transaction. */
  method SetPortIn(c: Cluster, port: string, up: bool) returns (found: bool)
    requires c.monitors.Valid()
    modifies c.monitors`sent, c.monitors`views, c.store`tables
    ensures c.monitors.Valid()
    ensures found <==> HasPort(old(c.Here()).tables, port)
    ensures PortSet(c.store.text, old(c.Here()), c.Here(), port, up)
  {
    hide Receive, Regs, Run, MatchWhere, Delivered, Synced;
    var mm, store := c.monitors, c.store;
    ghost var w, tables := mm.WorldOf(store, []), store.tables;
    var oldRow := store.GetRow(PORTS, port);
    if oldRow.None? {
      return false;
    }
    var count := store.Update(PORTS, ByUuid(port), map["up" := Bool(up)]);
    var newRow := store.GetRow(PORTS, port);
    var log := [Updated(PORTS, port, oldRow.value, newRow.value)];
    ghost var proper := WellFormed(tables) && PlainText(store.text);
    if proper {
      PortUpdated(store.text, tables, port, up);
      RunCommit(w, log);
      ReplayOne(tables, [], log[0]);
      EmptyLog(tables);
      assert [] + [log[0]] == log;
      if Synced(w) {
        SendingSynced(w, log, 1);
      }
    }
    SendAll(mm, store, log, w, proper);
    return true;
  }

  predicate Separate(clusters: map<string, Cluster>)
  {
    forall c, d :: c in clusters && d in clusters && c != d ==>
      clusters[c].monitors != clusters[d].monitors && clusters[c].store != clusters[d].store
  }

  lemma Apart(clusters: map<string, Cluster>, id: string)
    requires Separate(clusters) && id in clusters
    ensures forall c :: c in clusters && c != id ==>
              clusters[c].monitors != clusters[id].monitors && clusters[c].store != clusters[id].store
  {
  }

  /** The objects the clusters are made of. */
  ghost function Parts(clusters: map<string, Cluster>): (parts: set<object>)
    ensures forall c :: c in clusters ==> clusters[c].monitors in parts && clusters[c].store in parts
  {
    (set c | c in clusters :: clusters[c].monitors as object) + (set c | c in clusters :: clusters[c].store as object)
  }

  /** Sets a port up or down in every cluster that has it, in whatever order the map yields them. */
  method SetPortState(clusters: map<string, Cluster>, port: string, up: bool) returns (found: bool)
    requires Separate(clusters) && forall c :: c in clusters ==> clusters[c].monitors.Valid()
    modifies Parts(clusters)
    ensures forall c :: c in clusters ==> clusters[c].monitors.Valid()
    ensures found <==> exists c :: c in clusters && HasPort(old(clusters[c].Here()).tables, port)
    ensures forall c :: c in clusters ==>
              PortSet(clusters[c].store.text, old(clusters[c].Here()), clusters[c].Here(), port, up)
  {
    hide PortSet, HasPort, Regs, Parts, Separate, Cluster.Here, MonitorManager.Valid, MonitorManager.WorldOf;
    found := false;
    var todo := clusters.Keys;
    while todo != {}
      invariant todo <= clusters.Keys
      invariant forall c :: c in clusters ==> clusters[c].monitors.Valid()
      invariant forall c :: c in todo ==> unchanged(clusters[c].monitors, clusters[c].store)
      invariant found <==> exists c :: c in clusters && c !in todo && HasPort(old(clusters[c].Here()).tables, port)
      invariant forall c :: c in clusters && c !in todo ==>
                  PortSet(clusters[c].store.text, old(clusters[c].Here()), clusters[c].Here(), port, up)
    {
      var id :| id in todo;
      assert clusters[id].Here() == old(clusters[id].Here());
      Apart(clusters, id);
      var here := SetPortIn(clusters[id], port, up);
      found := found || here;
      todo := todo - {id};
    }
  }

  lemma {:induction false} PortUpdated(text: Text, tables: Tables, port: string, up: bool)
    requires WellFormed(tables) && PORTS in tables && port in tables[PORTS]
    requires PlainText(text)
    ensures
      var rows := tables[PORTS];
      var rows' := UpdatedRows(rows, Matched(text, rows, ByUuid(port)), map["up" := Bool(up)]);
      && rows' == rows[port := rows[port]["up" := Bool(up)]]
      && WellFormed(tables[PORTS := rows'])
  {
    var rows := tables[PORTS];
    forall id | id in rows
      ensures MatchWhere(text, rows[id], ByUuid(port)) <==> id == port
    {
      ByUuidMatches(text, id, rows[id], port);
    }
    hide MatchWhere;
    assert Matched(text, rows, ByUuid(port)) == {port};
    assert rows[port] + map["up" := Bool(up)] == rows[port]["up" := Bool(up)];
  }
}
