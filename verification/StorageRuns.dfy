/** Concrete runs in which what one might expect of the store does not hold. */
module StorageRuns {
  import opened Basics
  import opened Sums
  import opened StorageModel
  import opened StorageLedger
  import opened StorageAccounting
  import opened StorageMoves
  import opened StorageMirror
  import opened StorageCalls
  import opened StorageMigrations

  // ---- A migration worker that is left alone ----------------------------------------------------------

  /** The next `n` locked regions of one migration worker. */
  function Regions(mig: nat, n: nat): (cs: seq<Command>)
    ensures |cs| == n
  {
    if n == 0 then [] else Regions(mig, n - 1) + [MigrationStep(mig)]
  }

  lemma {:induction false} RunMore(s: State, cs: seq<Command>, c: Command)
    ensures Run(s, cs + [c]) == Step(Run(s, cs), c).next
  {
    hide Step;
    RunConcat(s, cs, [c]);
    assert [c][1..] == [];
    assert Run(Run(s, cs), [c]) == Run(Step(Run(s, cs), c).next, []);
  }

  /** Everything but one migration is the same. */
  predicate SameElse(s: State, s': State, mig: nat)
  {
    && s'.migrations - {mig} == s.migrations - {mig} && s'.migrationWorkers - {mig} == s.migrationWorkers - {mig}
    && s'.snapshots == s.snapshots && s'.opCounter == s.opCounter
  }

  predicate SameTask(s: State, s': State, mig: nat)
  {
    && mig in s.migrations && mig in s'.migrations && s'.migrations[mig].volume == s.migrations[mig].volume
    && s'.migrations[mig].source == s.migrations[mig].source && s'.migrations[mig].dest == s.migrations[mig].dest
  }

  /** One region before the last. */
  lemma {:induction false} RegionIdles(s: State, mig: nat)
    requires Live(s, mig) && s.migrationWorkers[mig].pc <= 11
    ensures
      var s', w := Step(s, MigrationStep(mig)).next, s.migrationWorkers[mig];
      && Live(s', mig) && s'.migrationWorkers[mig] == w.(pc := w.pc + 1)
      && s'.backends == s.backends && s'.volumes == s.volumes && SameElse(s, s', mig) && SameTask(s, s', mig)
  {
    assert Step(s, MigrationStep(mig)).next == MigrationRegion(s, mig);
    hide Step;
  }

  lemma {:induction false} Transfers(s: State, mig: nat, n: nat)
    requires Live(s, mig) && s.migrationWorkers[mig].pc + n <= 12
    ensures
      var s', w := Run(s, Regions(mig, n)), s.migrationWorkers[mig];
      && Live(s', mig) && s'.migrationWorkers[mig] == w.(pc := w.pc + n)
      && s'.backends == s.backends && s'.volumes == s.volumes && SameElse(s, s', mig) && SameTask(s, s', mig)
    decreases n
  {
    hide Step, Live, Run;
    LiveWorker(s, mig);
    if n == 0 {
      RunNothing(s);
    } else {
      Transfers(s, mig, n - 1);
      LiveWorker(Run(s, Regions(mig, n - 1)), mig);
      RegionIdles(Run(s, Regions(mig, n - 1)), mig);
      RunMore(s, Regions(mig, n - 1), MigrationStep(mig));
    }
  }

  lemma LiveWorker(s: State, mig: nat)
    ensures Live(s, mig) ==> mig in s.migrationWorkers && mig in s.migrations
  {
  }

  /** A migration that nobody touches completes with its thirteenth region: the captured capacity and the
      volume are on the destination, and nothing else has moved. */
  lemma {:induction false} Completes(s: State, mig: nat)
    requires Live(s, mig) && s.migrationWorkers[mig].pc == 0 && s.migrationWorkers[mig].volume in s.volumes
    ensures
      var s', w := Run(s, Regions(mig, 13)), s.migrationWorkers[mig];
      && s'.backends == Rebooked(s.backends, w)
      && s'.volumes == s.volumes[w.volume := s.volumes[w.volume].(backend := w.dest)]
      && mig !in s'.migrationWorkers && SameElse(s, s', mig)
      && mig in s'.migrations && s'.migrations[mig].state == Completed && s'.migrations[mig].progress == 100
      && s'.migrations[mig].bytes == w.size * 1073741824
      && s'.migrations[mig].volume == s.migrations[mig].volume
      && s'.migrations[mig].source == s.migrations[mig].source && s'.migrations[mig].dest == s.migrations[mig].dest
  {
    Transfers(s, mig, 12);
    assert Regions(mig, 13) == Regions(mig, 12) + [MigrationStep(mig)];
    RunMore(s, Regions(mig, 12), MigrationStep(mig));
    hide Run, Regions, Rebooked;
  }

  /** What such a migration reports after each of its ten transfer regions: the percentage, and a tenth of the
      bytes more each time, rounded down. */
  lemma {:induction false} ReportsProgress(s: State, mig: nat, i: nat)
    requires Tracked(s) && Live(s, mig) && s.migrationWorkers[mig].pc == 0 && 1 <= i <= 10
    requires s.migrationWorkers[mig].size >= 0
    ensures
      var s', size := Run(s, Regions(mig, i + 1)), s.migrationWorkers[mig].size;
      && mig in s'.migrations && s'.migrations[mig].state == Transferring
      && s'.migrations[mig].progress == [9, 18, 27, 36, 45, 54, 62, 72, 81, 90][i - 1]
      && 10 * s'.migrations[mig].bytes <= size * 1073741824 * i < 10 * s'.migrations[mig].bytes + 10
  {
    hide Run, Regions, Tracked, Live, ProgressAt, TenthOf;
    var s' := Run(s, Regions(mig, i + 1));
    LiveWorker(s, mig);
    Transfers(s, mig, i + 1);
    TrackedRun(s, Regions(mig, i + 1));
    LiveWorker(s', mig);
    LiveRecord(s', mig, i);
    TenthIs(Bytes(s'.migrationWorkers[mig]) * i);
    ProgressIs(i);
  }

  lemma {:induction false} LiveRecord(s: State, mig: nat, i: nat)
    requires Tracked(s) && Live(s, mig) && s.migrationWorkers[mig].pc == i + 1 && i <= 10
    ensures
      var m, w := s.migrations[mig], s.migrationWorkers[mig];
      m.state == Transferring && m.progress == ProgressAt(i) && m.bytes == TenthOf(Bytes(w) * i)
  {
    assert TrackedAt(s, mig);
    hide ProgressAt, TenthOf;
  }

  lemma TenthIs(x: int)
    ensures x >= 0 ==> 10 * TenthOf(x) <= x < 10 * TenthOf(x) + 10
    ensures x < 0 ==> 10 * TenthOf(x) - 10 < x <= 10 * TenthOf(x)
  {
  }

  lemma ProgressIs(i: nat)
    requires 1 <= i <= 10
    ensures ProgressAt(i) == [9, 18, 27, 36, 45, 54, 62, 72, 81, 90][i - 1]
  {
  }

  /** From the call on: a migration that is accepted and left alone ends with the volume on the destination, its
      size given back where it was and booked where it is, and the record completed. */
  lemma {:induction false} MigrationEndToEnd(s: State, id: string, dest: string)
    requires Step(s, StartMigration(id, dest)).err == None
    ensures id in s.volumes
    ensures
      var v, n := s.volumes[id], s.opCounter + 1;
      var s' := Run(Step(s, StartMigration(id, dest)).next, Regions(n, 13));
      && s'.volumes == s.volumes[id := v.(backend := dest)] && s'.snapshots == s.snapshots
      && n in s'.migrations && s'.migrations[n].state == Completed && s'.migrations[n].progress == 100
      && s'.migrations[n].source == v.backend && s'.migrations[n].dest == dest && s'.migrations[n].volume == id
      && s'.migrations[n].bytes == v.size * 1073741824
      && s'.backends == Book(Book(s.backends, v.backend, -v.size, v.thin), dest, v.size, v.thin)
  {
    StartsLeave(s, id, dest);
    hide Step, Run, Regions, Book, TenthOf;
    Completes(Step(s, StartMigration(id, dest)).next, s.opCounter + 1);
  }

  // ---- A flatten worker that is left alone ------------------------------------------------------------

  function FlattenRegions(op: nat, n: nat): (cs: seq<Command>)
    ensures |cs| == n
  {
    if n == 0 then [] else FlattenRegions(op, n - 1) + [FlattenStep(op)]
  }

  /** The flatten operation is under way, after `n` reports. */
  predicate Flattening(s: State, op: nat, id: string, n: nat)
  {
    && op in s.flattenWorkers && s.flattenWorkers[op] == FlattenWorker(n + 1, id)
    && op in s.operations && s.operations[op] == Operation(id, Running, 10 * n)
  }

  lemma {:induction false} FlattenReports(s: State, op: nat, id: string, n: nat)
    requires Flattening(s, op, id, 0) && n <= 10
    ensures
      var s' := Run(s, FlattenRegions(op, n));
      && Flattening(s', op, id, n)
      && s'.volumes == s.volumes && s'.snapshots == s.snapshots && s'.backends == s.backends
    decreases n
  {
    hide Run;
    if n == 0 {
      RunNothing(s);
    } else {
      FlattenReports(s, op, id, n - 1);
      RunMore(s, FlattenRegions(op, n - 1), FlattenStep(op));
      hide FlattenRegions;
    }
  }

  /** A flatten that nobody touches reports ten per cent at a time and completes with its eleventh region: the volume
      has no parent and has consumed its size, one entry for it is gone from its parent's list, and nothing else
      has moved. */
  lemma {:induction false} FlattenCompletes(s: State, op: nat, id: string)
    requires Flattening(s, op, id, 0) && id in s.volumes
    ensures
      var s', v := Run(s, FlattenRegions(op, 11)), s.volumes[id];
      && op !in s'.flattenWorkers && op in s'.operations
      && s'.operations[op] == Operation(id, OperationCompleted, 100)
      && s'.volumes == s.volumes[id := v.(consumed := v.size, parent := "")] && s'.backends == s.backends
      && s'.snapshots.Keys == s.snapshots.Keys
      && forall x :: x in s.snapshots ==>
           s'.snapshots[x] ==
           if x == v.parent then s.snapshots[x].(childClones := RemoveFirst(s.snapshots[x].childClones, id))
           else s.snapshots[x]
  {
    hide Run;
    FlattenReports(s, op, id, 10);
    assert FlattenRegions(op, 11) == FlattenRegions(op, 10) + [FlattenStep(op)];
    RunMore(s, FlattenRegions(op, 10), FlattenStep(op));
    hide FlattenRegions;
  }

  /** From the call on: a flatten that is accepted and left alone ends with the volume on its own feet. */
  lemma {:induction false} FlattenEndToEnd(s: State, id: string)
    requires Step(s, StartFlatten(id)).err == None
    ensures id in s.volumes
    ensures
      var v, n := s.volumes[id], s.opCounter + 1;
      var s' := Run(Step(s, StartFlatten(id)).next, FlattenRegions(n, 11));
      && s'.volumes == s.volumes[id := v.(consumed := v.size, parent := "")] && s'.backends == s.backends
      && n in s'.operations && s'.operations[n] == Operation(id, OperationCompleted, 100)
      && (v.parent in s.snapshots ==>
            && v.parent in s'.snapshots
            && s'.snapshots[v.parent].childClones == RemoveFirst(s.snapshots[v.parent].childClones, id))
  {
    StartsLeave(s, id, id);
    assert id in s.volumes;
    hide Step, Run, FlattenRegions, RemoveFirst;
    FlattenCompletes(Step(s, StartFlatten(id)).next, s.opCounter + 1, id);
  }

  /** A worker that finds its volume gone in its last region fails its record and moves nothing. */
  lemma {:induction false} FailsWithoutVolume(s: State, n: nat)
    ensures Live(s, n) && s.migrationWorkers[n].pc == 12 && s.migrationWorkers[n].volume !in s.volumes ==>
              var s' := Step(s, MigrationStep(n)).next;
              && s'.migrations == s.migrations[n := s.migrations[n].(state := Failed)]
              && s'.backends == s.backends && s'.volumes == s.volumes && s'.migrationWorkers == s.migrationWorkers - {n}
    ensures n in s.flattenWorkers && n in s.operations && s.flattenWorkers[n].pc == 11 && s.flattenWorkers[n].volume !in s.volumes ==>
              var s' := Step(s, FlattenStep(n)).next;
              && s'.operations == s.operations[n := s.operations[n].(state := OperationFailed)]
              && s'.snapshots == s.snapshots && s'.volumes == s.volumes && s'.flattenWorkers == s.flattenWorkers - {n}
  {
  }

  // ---- Steps of the runs ------------------------------------------------------------------------------

  function Disk(total: int, used: int): Backend
  {
    Backend(total, used, used, "active", 1.0)
  }

  function Thick(home: string, size: int): Volume
  {
    Volume(home, size, 0, false, false, None, [], "")
  }

  lemma {:induction false} Adds(s: State, id: string, total: int)
    requires id != "" && id !in s.backends
    ensures Step(s, AddBackend(id, Disk(total, 0))).next == s.(backends := s.backends[id := Disk(total, 0)])
  {
    assert Check(s, AddBackend(id, Disk(total, 0))) == None;
  }

  lemma {:induction false} Creates(s: State, id: string, home: string, size: int, total: int, used: int)
    requires id != "" && id !in s.volumes && home in s.backends && s.backends[home] == Disk(total, used)
    requires used + size <= total
    ensures Step(s, CreateVolume(id, Thick(home, size))).next ==
            s.(backends := s.backends[home := Disk(total, used + size)], volumes := s.volumes[id := Thick(home, size)])
  {
    hide Scaled;
    assert Check(s, CreateVolume(id, Thick(home, size))) == None;
  }

  lemma {:induction false} StartsThick(s: State, id: string, dest: string, total: int, used: int)
    requires id in s.volumes && dest in s.backends && s.backends[dest] == Disk(total, used)
    requires s.volumes[id] == Thick(s.volumes[id].backend, s.volumes[id].size) && used + s.volumes[id].size <= total
    ensures
      var s', mig, v := Step(s, StartMigration(id, dest)).next, s.opCounter + 1, s.volumes[id];
      && s'.backends == s.backends && s'.volumes == s.volumes && s'.snapshots == s.snapshots && s'.opCounter == mig
      && s'.migrations == s.migrations[mig := Migration(id, v.backend, dest, Preparing, 0, 0, false)]
      && s'.migrationWorkers ==
         s.migrationWorkers[mig := MigrationWorker(0, id, v.backend, dest, v.size, false)]
  {
    hide Scaled;
    assert Check(s, StartMigration(id, dest)) == None;
  }

  lemma {:induction false} Extends(s: State, id: string, newSize: int, total: int, used: int)
    requires id in s.volumes && s.volumes[id] == Thick(s.volumes[id].backend, s.volumes[id].size)
    requires s.volumes[id].size < newSize && s.volumes[id].backend in s.backends
    requires s.backends[s.volumes[id].backend] == Disk(total, used) && used + newSize - s.volumes[id].size <= total
    ensures
      var v := s.volumes[id];
      Step(s, ExtendVolume(id, newSize)).next ==
      s.(backends := s.backends[v.backend := Disk(total, used + newSize - v.size)],
         volumes := s.volumes[id := Thick(v.backend, newSize)])
  {
    hide Scaled;
    assert Check(s, ExtendVolume(id, newSize)) == None;
  }

  lemma {:induction false} TwoDisks(first: int, second: int)
    ensures Run(EMPTY, [AddBackend("a", Disk(first, 0)), AddBackend("b", Disk(second, 0))]) ==
            EMPTY.(backends := map["a" := Disk(first, 0), "b" := Disk(second, 0)])
  {
    hide Run, Step;
    var c, d := AddBackend("a", Disk(first, 0)), AddBackend("b", Disk(second, 0));
    RunMore(EMPTY, [], c);
    RunNothing(EMPTY);
    RunMore(EMPTY, [c], d);
    assert [] + [c] == [c] && [c] + [d] == [c, d];
    Adds(EMPTY, "a", first);
    Adds(EMPTY.(backends := map["a" := Disk(first, 0)]), "b", second);
  }

  lemma RunNothing(s: State)
    ensures Run(s, []) == s
  {
  }

  // ---- A volume extended in flight --------------------------------------------------------------------

  /** Two backends, a volume on the first, a migration of it to the second, and an extension in flight. */
  function ExtendedInFlight(): seq<Command>
  {
    [AddBackend("a", Disk(100, 0)), AddBackend("b", Disk(100, 0))]
    + [CreateVolume("v", Thick("a", 10))] + [StartMigration("v", "b")] + [ExtendVolume("v", 15)]
  }

  lemma {:induction false} ExtendedInFlightState()
    ensures
      var s := Run(EMPTY, ExtendedInFlight());
      && s.backends == map["a" := Disk(100, 15), "b" := Disk(100, 0)] && s.volumes == map["v" := Thick("a", 15)]
      && Live(s, 1) && s.migrationWorkers[1] == MigrationWorker(0, "v", "a", "b", 10, false)
  {
    hide Run, Step;
    TwoDisks(100, 100);
    var cs := [AddBackend("a", Disk(100, 0)), AddBackend("b", Disk(100, 0))];
    var s := Run(EMPTY, cs);
    RunMore(EMPTY, cs, CreateVolume("v", Thick("a", 10)));
    Creates(s, "v", "a", 10, 100, 0);
    cs := cs + [CreateVolume("v", Thick("a", 10))];
    s := Run(EMPTY, cs);
    RunMore(EMPTY, cs, StartMigration("v", "b"));
    StartsThick(s, "v", "b", 100, 0);
    cs := cs + [StartMigration("v", "b")];
    s := Run(EMPTY, cs);
    RunMore(EMPTY, cs, ExtendVolume("v", 15));
    Extends(s, "v", 15, 100, 10);
  }

  /** When the migration completes, 5 stay booked on a backend that has no volume left, and the other
      backend is 5 short. */
  lemma {:induction false} ExtendInFlightDrifts()
    ensures
      var l := LedgerOf(Run(EMPTY, ExtendedInFlight() + Regions(1, 13)));
      && l.accounts.Keys == {"a", "b"} && l.entries == map["v" := Entry("b", 15, false)]
      && l.accounts["a"].alloc == 5 && l.accounts["b"].alloc == 10 && !Exact(l)
  {
    hide Run, Step, Regions, ExtendedInFlight;
    var s := Run(EMPTY, ExtendedInFlight());
    ExtendedInFlightState();
    RunConcat(EMPTY, ExtendedInFlight(), Regions(1, 13));
    Completes(s, 1);
    var l := LedgerOf(Run(s, Regions(1, 13)));
    assert l.entries == map["v" := Entry("b", 15, false)];
    assert l.accounts["a"].alloc == 5;
    TotalZero(l.entries, SizeOn("a"));
    assert !ExactOn(l, "a");
  }

  // ---- Two migrations to one backend ------------------------------------------------------------------

  /** Two volumes that fit on the second backend one at a time, both on their way to it. */
  function BothInFlight(): seq<Command>
  {
    [AddBackend("a", Disk(100, 0)), AddBackend("b", Disk(10, 0))]
    + [CreateVolume("v", Thick("a", 10))] + [CreateVolume("w", Thick("a", 10))]
    + [StartMigration("v", "b")] + [StartMigration("w", "b")]
  }

  lemma {:induction false} BothInFlightState()
    ensures
      var s := Run(EMPTY, BothInFlight());
      && s.backends == map["a" := Disk(100, 20), "b" := Disk(10, 0)]
      && s.volumes == map["v" := Thick("a", 10), "w" := Thick("a", 10)]
      && Live(s, 1) && s.migrationWorkers[1] == MigrationWorker(0, "v", "a", "b", 10, false)
      && Live(s, 2) && s.migrationWorkers[2] == MigrationWorker(0, "w", "a", "b", 10, false)
  {
    hide Run, Step;
    TwoDisks(100, 10);
    var cs := [AddBackend("a", Disk(100, 0)), AddBackend("b", Disk(10, 0))];
    var s := Run(EMPTY, cs);
    RunMore(EMPTY, cs, CreateVolume("v", Thick("a", 10)));
    Creates(s, "v", "a", 10, 100, 0);
    cs := cs + [CreateVolume("v", Thick("a", 10))];
    s := Run(EMPTY, cs);
    RunMore(EMPTY, cs, CreateVolume("w", Thick("a", 10)));
    Creates(s, "w", "a", 10, 100, 10);
    cs := cs + [CreateVolume("w", Thick("a", 10))];
    s := Run(EMPTY, cs);
    RunMore(EMPTY, cs, StartMigration("v", "b"));
    StartsThick(s, "v", "b", 10, 0);
    cs := cs + [StartMigration("v", "b")];
    s := Run(EMPTY, cs);
    RunMore(EMPTY, cs, StartMigration("w", "b"));
    StartsThick(s, "w", "b", 10, 0);
  }

  /** Both pass the destination check, and when both have completed twice the capacity is in use there. */
  lemma {:induction false} TwoMigrationsOverfill()
    ensures
      var s := Run(EMPTY, BothInFlight() + Regions(1, 13) + Regions(2, 13));
      "b" in s.backends && s.backends["b"] == Disk(10, 20) && !AllSober(LedgerOf(s))
  {
    hide Run, Step, Regions, BothInFlight;
    BothInFlightState();
    var s := Run(EMPTY, BothInFlight());
    RunConcat(EMPTY, BothInFlight(), Regions(1, 13));
    RunConcat(EMPTY, BothInFlight() + Regions(1, 13), Regions(2, 13));
    Completes(s, 1);
    var t := Run(s, Regions(1, 13));
    assert 2 in s.migrations - {1} && 2 in s.migrationWorkers - {1};
    assert (t.migrations - {1})[2] == (s.migrations - {1})[2] && (t.migrationWorkers - {1})[2] == (s.migrationWorkers - {1})[2];
    assert Live(t, 2) && t.migrationWorkers[2] == s.migrationWorkers[2];
    assert t.backends["b"] == Disk(10, 10);
    Completes(t, 2);
    assert !Sober(LedgerOf(Run(t, Regions(2, 13))).accounts["b"]);
  }

  // ---- A clone deleted --------------------------------------------------------------------------------

  /** A volume with a snapshot and a clone of it, which is then deleted. */
  function CloneDeleted(): seq<Command>
  {
    [AddBackend("a", Disk(100, 0)), AddBackend("b", Disk(100, 0))]
    + [CreateVolume("v", Thick("a", 10))] + [CreateSnapshot("v", "x")] + [CloneFromSnapshot("x", "w")]
    + [DeleteVolume("w")]
  }

  lemma {:induction false} SnapshotsVolume(s: State, id: string, x: string)
    requires id in s.volumes && x != "" && x !in s.snapshots
    ensures
      var s', v := Step(s, CreateSnapshot(id, x)).next, s.volumes[id];
      && s'.backends == s.backends && s'.volumes == s.volumes[id := v.(snapshots := v.snapshots + [x])]
      && s'.snapshots == s.snapshots[x := Snapshot(id, v.size, [])]
  {
    assert Check(s, CreateSnapshot(id, x)) == None;
  }

  lemma {:induction false} ClonesSnapshot(s: State, x: string, id: string)
    requires id != "" && id !in s.volumes && x in s.snapshots && s.snapshots[x].volume in s.volumes
    requires
      var home := s.volumes[s.snapshots[x].volume].backend;
      home in s.backends && s.backends[home].state == "active" && Fits(s.backends[home], s.snapshots[x].size, true)
    ensures
      var s' := Step(s, CloneFromSnapshot(x, id)).next;
      && s'.volumes == s.volumes[id := CloneOf(s, x)]
      && x in s'.snapshots && s'.snapshots[x].childClones == s.snapshots[x].childClones + [id]
  {
    hide Fits;
    assert Check(s, CloneFromSnapshot(x, id)) == None;
  }

  lemma {:induction false} DeletesVolume(s: State, id: string)
    requires id in s.volumes && !s.volumes[id].inUse && s.volumes[id].snapshots == []
    ensures
      var s' := Step(s, DeleteVolume(id)).next;
      s'.volumes == s.volumes - {id} && s'.snapshots == s.snapshots
  {
    assert Check(s, DeleteVolume(id)) == None;
  }

  /** The snapshot still lists the clone that is gone. */
  lemma {:induction false} DeletedCloneStaysListed()
    ensures
      var s := Run(EMPTY, CloneDeleted());
      "x" in s.snapshots && s.snapshots["x"].childClones == ["w"] && "w" !in s.volumes && !Mirrored(s)
  {
    hide Run, Step, Fits;
    TwoDisks(100, 100);
    var cs := [AddBackend("a", Disk(100, 0)), AddBackend("b", Disk(100, 0))];
    var s := Run(EMPTY, cs);
    RunMore(EMPTY, cs, CreateVolume("v", Thick("a", 10)));
    Creates(s, "v", "a", 10, 100, 0);
    cs := cs + [CreateVolume("v", Thick("a", 10))];
    s := Run(EMPTY, cs);
    RunMore(EMPTY, cs, CreateSnapshot("v", "x"));
    SnapshotsVolume(s, "v", "x");
    cs := cs + [CreateSnapshot("v", "x")];
    s := Run(EMPTY, cs);
    RunMore(EMPTY, cs, CloneFromSnapshot("x", "w"));
    DiskFits(100, 10, 10);
    ClonesSnapshot(s, "x", "w");
    cs := cs + [CloneFromSnapshot("x", "w")];
    s := Run(EMPTY, cs);
    RunMore(EMPTY, cs, DeleteVolume("w"));
    DeletesVolume(s, "w");
    assert !ClonesMirrored(Run(EMPTY, CloneDeleted()), "x");
  }

  lemma DiskFits(total: int, used: int, amount: int)
    requires total >= 0 && used + amount <= total
    ensures Fits(Disk(total, used), amount, true)
  {
    assert total as real * 1.0 == total as real;
  }
}
