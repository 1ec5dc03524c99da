/** The life of a storage migration over whole runs. */
module StorageMigrations {
  import opened Basics
  import opened StorageModel

  predicate Terminal(m: Migration)
  {
    m.state == Completed || m.state == Failed
  }

  /** The moves of a migration's state. */
  predicate Edge(a: MigrationState, b: MigrationState)
  {
    || a == b
    || (a == Preparing && (b == Transferring || b == Failed))
    || (a == Transferring && (b == Finishing || b == Failed))
    || (a == Finishing && (b == Completed || b == Failed))
  }

  /** The states reachable along the edges. */
  predicate Reaches(a: MigrationState, b: MigrationState)
  {
    || a == b
    || a == Preparing
    || (a == Transferring && b != Preparing)
    || (a == Finishing && (b == Completed || b == Failed))
  }

  /** `b` is a later record of the same migration than `a`. */
  predicate Later(a: Migration, b: Migration)
  {
    && b.volume == a.volume && b.source == a.source && b.dest == a.dest
    && Reaches(a.state, b.state)
    && a.progress <= b.progress
    && a.bytes <= b.bytes
    && (Terminal(a) ==> b == a)
  }

  function Bytes(w: MigrationWorker): int
  {
    w.size * BYTES_PER_GB
  }

  /** The record agrees with the worker's position; a worker that is gone left a terminal record. */
  predicate InStep(m: Migration, w: MigrationWorker)
  {
    && w.pc <= 12
    && (m.cancelled ==> m.state == Failed)
    && (!m.cancelled && w.pc == 0 ==> m.state == Preparing && m.progress == 0 && m.bytes == 0)
    && (!m.cancelled && 1 <= w.pc <= 11 ==>
          && m.state == Transferring && m.progress == ProgressAt(w.pc - 1)
          && m.bytes == TenthOf(Bytes(w) * (w.pc - 1)))
    && (!m.cancelled && w.pc == 12 ==>
          m.state == Finishing && m.progress == 90 && m.bytes == TenthOf(Bytes(w) * 10))
  }

  predicate TrackedAt(s: State, id: nat)
    requires id in s.migrations
  {
    && id <= s.opCounter
    && (if id in s.migrationWorkers then InStep(s.migrations[id], s.migrationWorkers[id])
        else Terminal(s.migrations[id]))
  }

  predicate Tracked(s: State)
  {
    && s.migrationWorkers.Keys <= s.migrations.Keys
    && forall id :: id in s.migrations ==> TrackedAt(s, id)
  }

  lemma BytesGrow(total: int, i: nat)
    requires total >= 0
    ensures TenthOf(total * i) <= TenthOf(total * (i + 1))
    ensures TenthOf(total * 10) == total
  {
    assert total * (i + 1) == total * i + total;
    assert total * i >= 0;
  }

  /** What one region writes: an edge of the state graph, and the record stays in step with the worker. */
  lemma {:induction false} RegionRecord(m: Migration, w: MigrationWorker, found: bool)
    requires InStep(m, w) && !m.cancelled
    ensures
      var m' := MigrationAfter(m, w, found);
      && Edge(m.state, m'.state) && !m'.cancelled
      && (w.pc <= 11 ==> InStep(m', w.(pc := w.pc + 1)))
      && (w.pc == 12 ==> m'.state == if found then Completed else Failed)
  {
    if w.pc == 0 {
      assert Bytes(w) * 0 == 0;
    }
  }

  lemma {:induction false} RegionLater(m: Migration, w: MigrationWorker, found: bool)
    requires InStep(m, w) && !m.cancelled && w.size >= 0
    ensures Later(m, MigrationAfter(m, w, found))
  {
    if 1 <= w.pc <= 10 {
      BytesGrow(Bytes(w), w.pc - 1);
      assert TenthOf(Bytes(w) * (w.pc - 1)) <= TenthOf(Bytes(w) * w.pc);
    } else if w.pc == 12 {
      BytesGrow(Bytes(w), 10);
    }
  }

  /** Bytes go back with the first report exactly when the volume was of negative size at the start. */
  lemma {:induction false} FirstReportForwardIff(m: Migration, w: MigrationWorker, found: bool)
    requires InStep(m, w) && !m.cancelled && w.pc == 1
    ensures Later(m, MigrationAfter(m, w, found)) <==> w.size >= 0
  {
    assert Bytes(w) * 0 == 0 && Bytes(w) * 1 == Bytes(w);
    if w.size >= 0 {
      RegionLater(m, w, found);
    }
  }

  lemma {:induction false} TrackedRegion(s: State, mig: nat)
    requires Tracked(s)
    ensures Tracked(MigrationRegion(s, mig))
    ensures mig in s.migrations ==> Edge(s.migrations[mig].state, MigrationRegion(s, mig).migrations[mig].state)
  {
    var s' := MigrationRegion(s, mig);
    if mig in s.migrations {
      assert TrackedAt(s, mig);
      if Live(s, mig) {
        RegionRecord(s.migrations[mig], s.migrationWorkers[mig], s.migrationWorkers[mig].volume in s.volumes);
      }
      assert TrackedAt(s', mig);
    }
    forall id | id in s'.migrations
      ensures TrackedAt(s', id)
    {
      if id != mig {
        assert TrackedAt(s, id);
      }
    }
  }

  lemma {:induction false} TrackedStep(s: State, c: Command)
    requires Tracked(s)
    ensures Tracked(Step(s, c).next)
  {
    var s' := Step(s, c).next;
    if c.MigrationStep? {
      TrackedRegion(s, c.worker);
    } else {
      if c.StartMigration? || c.CancelMigration? {
        if Check(s, c).None? {
        }
      } else {
        MigrationsUntouched(s, c);
      }
      forall id | id in s'.migrations
        ensures TrackedAt(s', id)
      {
        if id in s.migrations {
          assert TrackedAt(s, id);
        }
      }
    }
  }

  /** The volume a migration moves was not of negative size when the migration started. */
  predicate Sized(s: State, id: nat)
  {
    id in s.migrationWorkers ==> s.migrationWorkers[id].size >= 0
  }

  lemma {:induction false} RegionForward(s: State, mig: nat, id: nat)
    requires Tracked(s) && id in s.migrations && Sized(s, id)
    ensures
      var s' := MigrationRegion(s, mig);
      id in s'.migrations && Sized(s', id) && Later(s.migrations[id], s'.migrations[id])
  {
    assert TrackedAt(s, id);
    if mig == id && Live(s, id) {
      RegionLater(s.migrations[id], s.migrationWorkers[id], s.migrationWorkers[id].volume in s.volumes);
    }
  }

  /** One step takes a migration along an edge of its state graph. */
  lemma {:induction false} MigrationEdge(s: State, c: Command, id: nat)
    requires Tracked(s) && id in s.migrations
    ensures id in Step(s, c).next.migrations
    ensures Edge(s.migrations[id].state, Step(s, c).next.migrations[id].state)
  {
    assert TrackedAt(s, id);
    if c.MigrationStep? {
      TrackedRegion(s, c.worker);
    } else if c.StartMigration? || c.CancelMigration? {
      if Check(s, c).None? {
      }
    } else {
      MigrationsUntouched(s, c);
    }
  }

  /** One step never takes a migration back. */
  lemma {:induction false} MigrationStepForward(s: State, c: Command, id: nat)
    requires Tracked(s) && id in s.migrations && Sized(s, id)
    ensures id in Step(s, c).next.migrations
    ensures Sized(Step(s, c).next, id) && Later(s.migrations[id], Step(s, c).next.migrations[id])
  {
    assert TrackedAt(s, id);
    if c.MigrationStep? {
      RegionForward(s, c.worker, id);
    } else if c.StartMigration? || c.CancelMigration? {
      if Check(s, c).None? {
      }
    } else {
      MigrationsUntouched(s, c);
    }
  }

  /** Over any run a migration only moves forward: along its states, in progress and in bytes; once
      completed or failed its record never changes again. */
  lemma {:induction false} MigrationForward(s: State, cs: seq<Command>, id: nat)
    requires Tracked(s) && id in s.migrations && Sized(s, id)
    ensures id in Run(s, cs).migrations
    ensures Later(s.migrations[id], Run(s, cs).migrations[id])
    decreases |cs|
  {
    if cs != [] {
      MigrationStepForward(s, cs[0], id);
      TrackedStep(s, cs[0]);
      MigrationForward(Step(s, cs[0]).next, cs[1..], id);
    }
  }

  lemma {:induction false} TrackedRun(s: State, cs: seq<Command>)
    requires Tracked(s)
    ensures Tracked(Run(s, cs))
    decreases |cs|
  {
    if cs != [] {
      TrackedStep(s, cs[0]);
      TrackedRun(Step(s, cs[0]).next, cs[1..]);
    }
  }

  /** A migration's record at any later point of a run is a later record of the same migration. */
  lemma {:induction false} MigrationLife(cs: seq<Command>, more: seq<Command>, id: nat)
    requires id in Run(EMPTY, cs).migrations && Sized(Run(EMPTY, cs), id)
    ensures
      var s, s' := Run(EMPTY, cs), Run(Run(EMPTY, cs), more);
      id in s'.migrations && Later(s.migrations[id], s'.migrations[id])
  {
    hide Later, Sized;
    TrackedRun(EMPTY, cs);
    MigrationForward(Run(EMPTY, cs), more, id);
  }

  // ---- Capacity moves at most once --------------------------------------------------------------

  /** Whether the worker's next region changes any counter or any volume. */
  predicate Shifts(s: State, id: nat)
  {
    MigrationRegion(s, id).backends != s.backends || MigrationRegion(s, id).volumes != s.volumes
  }

  /** How often, in a run, a region of migration `id` changes a counter or a volume. */
  function ShiftCount(s: State, cs: seq<Command>, id: nat): nat
    decreases |cs|
  {
    if cs == [] then 0
    else
      (if cs[0] == MigrationStep(id) && Shifts(s, id) then 1 else 0) + ShiftCount(Step(s, cs[0]).next, cs[1..], id)
  }

  /** A terminal record stays, and its worker shifts nothing any more. */
  lemma {:induction false} TerminalShiftsNothing(s: State, cs: seq<Command>, id: nat)
    requires Tracked(s) && id in s.migrations && Terminal(s.migrations[id])
    ensures ShiftCount(s, cs, id) == 0
    ensures id in Run(s, cs).migrations && Run(s, cs).migrations[id] == s.migrations[id]
    decreases |cs|
  {
    assert TrackedAt(s, id);
    if cs != [] {
      TerminalStep(s, cs[0], id);
      TrackedStep(s, cs[0]);
      TerminalShiftsNothing(Step(s, cs[0]).next, cs[1..], id);
    }
  }

  lemma {:induction false} TerminalStep(s: State, c: Command, id: nat)
    requires Tracked(s) && id in s.migrations && Terminal(s.migrations[id])
    ensures id in Step(s, c).next.migrations && Step(s, c).next.migrations[id] == s.migrations[id]
    ensures !Shifts(s, id)
  {
    assert TrackedAt(s, id);
    if c.StartMigration? || c.CancelMigration? {
      if Check(s, c).None? {
      }
    } else if !c.MigrationStep? {
      MigrationsUntouched(s, c);
    }
  }

  /** Capacity moves at most once per migration, and never for one that ends up failed or cancelled. */
  lemma {:induction false} CapacityMovesOnce(s: State, cs: seq<Command>, id: nat)
    requires Tracked(s)
    ensures ShiftCount(s, cs, id) <= 1
    ensures id in Run(s, cs).migrations && Run(s, cs).migrations[id].state != Completed ==> ShiftCount(s, cs, id) == 0
    decreases |cs|
  {
    if cs != [] {
      var s' := Step(s, cs[0]).next;
      TrackedStep(s, cs[0]);
      if cs[0] == MigrationStep(id) && Shifts(s, id) {
        assert Moves(s, id);
        assert TrackedAt(s, id);
        assert s'.migrations[id].state == Completed;
        TerminalShiftsNothing(s', cs[1..], id);
      } else {
        CapacityMovesOnce(s', cs[1..], id);
      }
    }
  }

  // ---- Cancelling ---------------------------------------------------------------------------------

  /** A cancel is accepted if and only if the migration is preparing or transferring; otherwise it changes
      nothing. Accepted, it fails the record and touches nothing else. */
  lemma {:induction false} CancelIff(s: State, mig: nat)
    ensures
      var r := Step(s, CancelMigration(mig));
      && (r.err == None <==>
          mig in s.migrations && (s.migrations[mig].state == Preparing || s.migrations[mig].state == Transferring))
      && (mig !in s.migrations ==> r.err == Some(MigrationNotFound))
      && (mig in s.migrations && r.err != None ==> r.err == Some(CannotCancel(s.migrations[mig].state)))
      && (r.err != None ==> r.next == s)
      && (r.err == None ==>
            r.next == s.(migrations := s.migrations[mig := s.migrations[mig].(state := Failed, cancelled := true)]))
  {
  }

  /** Once a cancel was accepted, the record is failed and cancelled at every later point of every run, and no
      region of the migration ever changes a counter or a volume. */
  lemma {:induction false} CancelledForever(cs: seq<Command>, mig: nat, more: seq<Command>)
    requires Step(Run(EMPTY, cs), CancelMigration(mig)).err == None
    ensures
      var s := Step(Run(EMPTY, cs), CancelMigration(mig)).next;
      && mig in Run(s, more).migrations
      && Run(s, more).migrations[mig].state == Failed && Run(s, more).migrations[mig].cancelled
      && ShiftCount(s, more, mig) == 0
  {
    hide Step, Run, ShiftCount, Tracked;
    var s := Run(EMPTY, cs);
    CancelIff(s, mig);
    EmptyTracked();
    TrackedRun(EMPTY, cs);
    TrackedStep(s, CancelMigration(mig));
    TerminalShiftsNothing(Step(s, CancelMigration(mig)).next, more, mig);
  }

  lemma EmptyTracked()
    ensures Tracked(EMPTY)
  {
  }
}
