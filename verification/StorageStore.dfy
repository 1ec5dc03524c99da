/** The storage store itself: the tables it keeps and the calls that change them in place, each proved to
    take exactly one step of the model and to keep what the model's runs keep. */
module StorageStore {
  import opened Basics
  import opened StorageModel
  import opened StorageLedger
  import opened StorageAccounting
  import opened StorageLineage
  import opened StorageMigrations

  datatype Result<+T> = Ok(value: T) | Err(error: Error)
  {
    function Failure(): Option<Error>
    {
      if Ok? then None else Some(error)
    }
  }

  lemma {:induction false} RemoveFirstAt(xs: seq<string>, x: string, i: nat)
    requires i <= |xs| && x !in xs[..i]
    requires i < |xs| ==> xs[i] == x
    ensures RemoveFirst(xs, x) == if i < |xs| then xs[..i] + xs[i + 1..] else xs
  {
    if i > 0 {
      var tail := xs[1..];
      assert xs[0] == xs[..i][0];
      assert tail[..i - 1] == xs[..i][1..];
      RemoveFirstAt(tail, x, i - 1);
      assert RemoveFirst(xs, x) == [xs[0]] + RemoveFirst(tail, x);
      if i < |xs| {
        assert tail[i..] == xs[i + 1..] && xs[..i] == [xs[0]] + tail[..i - 1];
      }
    }
  }

  /** The scan that takes an id off a list: stop at the first match. */
  method Unlist(xs: seq<string>, x: string) returns (r: seq<string>)
    ensures r == RemoveFirst(xs, x)
  {
    r := xs;
    var i := 0;
    while i < |xs|
      invariant 0 <= i <= |xs|
      invariant x !in xs[..i]
      invariant r == xs
    {
      if xs[i] == x {
        r := xs[..i] + xs[i + 1..];
        break;
      }
      i := i + 1;
    }
    RemoveFirstAt(xs, x, i);
  }

  /** What holds of the store between calls: volumes and workers name registered backends, no snapshot or
      clone link dangles, every migration record is in step with its worker, and the capacity booked on all
      backends together is the size of all volumes together. */
  ghost predicate Sustained(s: State)
  {
    Grounded(s) && Linked(s) && Tracked(s) && AllocDrift(LedgerOf(s)) == 0 && UsedDrift(LedgerOf(s)) == 0
  }

  /** Backends are registered empty, and volumes created without snapshots and without a parent. */
  ghost predicate Proper(c: Command)
  {
    RegistersEmpty(c) && Blank(c)
  }

  lemma {:induction false} SustainedStep(s: State, c: Command)
    requires Sustained(s) && Proper(c)
    ensures Sustained(Step(s, c).next)
  {
    hide Step, Grounded, Linked, Tracked, AllocDrift, UsedDrift, Post, Check;
    StepPosts(s, c);
    StepSound(s, c);
    ConservationPost(LedgerOf(s), BookingOf(s, c));
    GroundedStep(s, c);
    LinkedStep(s, c);
    TrackedStep(s, c);
  }

  /** A worker step is never refused. */
  lemma {:induction false} WorkerRegions(s: State, worker: nat)
    ensures Step(s, MigrationStep(worker)).next == MigrationRegion(s, worker)
    ensures Step(s, FlattenStep(worker)).next == FlattenRegion(s, worker)
  {
    hide MigrationRegion, FlattenRegion;
  }

  /** The admission check and the charge: thin space against the over-provisioned total, thick space
      against the physical one. */
  method Admit(b: Backend, amount: int, thin: bool) returns (charged: Option<Backend>)
    ensures charged == if Fits(b, amount, thin) then Some(Charge(b, amount, thin)) else None
  {
    if thin {
      var maxAlloc := Scaled(b.total, b.ratio);
      if b.alloc + amount > maxAlloc {
        return None;
      }
      return Some(b.(alloc := b.alloc + amount));
    }
    if b.used + amount > b.total {
      return None;
    }
    var after := b.(used := b.used + amount);
    return Some(after.(alloc := after.alloc + amount));
  }

  /** The record a locked region leaves: entering the transfer, reporting progress, entering the finish, and
      the end. */
  method NextRecord(m: Migration, w: MigrationWorker, found: bool) returns (m': Migration)
    ensures m' == MigrationAfter(m, w, found)
  {
    if w.pc == 0 {
      return m.(state := Transferring);
    }
    if w.pc == 11 {
      return m.(state := Finishing);
    }
    if w.pc <= 10 {
      m' := m.(progress := ProgressAt(w.pc));
      return m'.(bytes := TenthOf(w.size * BYTES_PER_GB * w.pc));
    }
    if !found {
      return m.(state := Failed);
    }
    m' := m.(state := Completed);
    return m'.(progress := 100, bytes := w.size * BYTES_PER_GB);
  }

  class Store {
    var backends: map<string, Backend>
    var volumes: map<string, Volume>
    var snapshots: map<string, Snapshot>
    var operations: map<nat, Operation>
    var migrations: map<nat, Migration>
    var opCounter: nat
    var flattenWorkers: map<nat, FlattenWorker>
    var migrationWorkers: map<nat, MigrationWorker>

    ghost function View(): State
      reads this
    {
      State(backends, volumes, snapshots, operations, migrations, opCounter, flattenWorkers, migrationWorkers)
    }

    ghost predicate Valid()
      reads this
    {
      Sustained(View())
    }

    constructor ()
      ensures Valid() && View() == EMPTY
    {
      backends, volumes, snapshots := map[], map[], map[];
      operations, migrations, opCounter := map[], map[], 0;
      flattenWorkers, migrationWorkers := map[], map[];
    }

    method AddBackend(id: string, b: Backend) returns (err: Option<Error>)
      modifies this
      ensures Outcome(View(), err) == Step(old(View()), Command.AddBackend(id, b))
      ensures old(Valid()) && b.alloc == 0 && b.used == 0 ==> Valid()
    {
      hide Sustained;
      if Valid() && b.alloc == 0 && b.used == 0 {
        SustainedStep(View(), Command.AddBackend(id, b));
      }
      if id == "" {
        return Some(EmptyBackendId);
      }
      if id in backends {
        return Some(BackendExists);
      }
      var stored := b;
      if stored.state == "" {
        stored := stored.(state := "active");
      }
      if stored.ratio == 0.0 {
        stored := stored.(ratio := 1.0);
      }
      backends := backends[id := stored];
      return None;
    }

    method SetBackendState(id: string, backendState: string) returns (err: Option<Error>)
      modifies this
      ensures Outcome(View(), err) == Step(old(View()), Command.SetBackendState(id, backendState))
      ensures old(Valid()) ==> Valid()
    {
      hide Sustained;
      if Valid() {
        SustainedStep(View(), Command.SetBackendState(id, backendState));
      }
      if id !in backends {
        return Some(BackendNotFound);
      }
      backends := backends[id := backends[id].(state := backendState)];
      return None;
    }

    method CreateVolume(id: string, v: Volume) returns (r: Result<Volume>)
      modifies this
      ensures Outcome(View(), r.Failure()) == Step(old(View()), Command.CreateVolume(id, v))
      ensures old(Valid()) && v.snapshots == [] && v.parent == "" ==> Valid()
      ensures r.Ok? ==> id in volumes && r.value == volumes[id]
    {
      hide Sustained, Fits, Charge;
      if Valid() && v.snapshots == [] && v.parent == "" {
        SustainedStep(View(), Command.CreateVolume(id, v));
      }
      if id == "" {
        return Err(EmptyVolumeId);
      }
      if id in volumes {
        return Err(VolumeExists);
      }
      if v.backend !in backends {
        return Err(BackendNotFound);
      }
      if backends[v.backend].state != "active" {
        return Err(BackendNotActive);
      }
      var charged := Admit(backends[v.backend], v.size, v.thin);
      if charged.None? {
        return Err(InsufficientCapacity);
      }
      backends := backends[v.backend := charged.value];
      var stored := v.(inUse := false, consumed := 0);
      volumes := volumes[id := stored];
      assert View() == Step(old(View()), Command.CreateVolume(id, v)).next;
      return Ok(stored);
    }

    method DeleteVolume(id: string) returns (err: Option<Error>)
      modifies this
      ensures Outcome(View(), err) == Step(old(View()), Command.DeleteVolume(id))
      ensures old(Valid()) ==> Valid()
    {
      hide Sustained;
      if Valid() {
        SustainedStep(View(), Command.DeleteVolume(id));
      }
      if id !in volumes {
        return Some(VolumeNotFound);
      }
      var v := volumes[id];
      if v.inUse {
        return Some(VolumeInUse);
      }
      if |v.snapshots| > 0 {
        return Some(VolumeHasSnapshots);
      }
      if v.backend in backends {
        var b := backends[v.backend];
        b := b.(alloc := b.alloc - v.size);
        if !v.thin {
          b := b.(used := b.used - v.size);
        }
        backends := backends[v.backend := b];
      }
      volumes := volumes - {id};
      return None;
    }

    method ExtendVolume(id: string, newSize: int) returns (r: Result<Volume>)
      modifies this
      ensures Outcome(View(), r.Failure()) == Step(old(View()), Command.ExtendVolume(id, newSize))
      ensures old(Valid()) ==> Valid()
      ensures r.Ok? ==> id in volumes && r.value == volumes[id]
    {
      hide Sustained, Fits, Charge;
      if Valid() {
        SustainedStep(View(), Command.ExtendVolume(id, newSize));
      }
      if id !in volumes {
        return Err(VolumeNotFound);
      }
      var v := volumes[id];
      if newSize <= v.size {
        return Err(ShrinkNotAllowed);
      }
      if v.backend !in backends {
        return Err(BackendNotFound);
      }
      var charged := Admit(backends[v.backend], newSize - v.size, v.thin);
      if charged.None? {
        return Err(InsufficientCapacity);
      }
      backends := backends[v.backend := charged.value];
      volumes := volumes[id := v.(size := newSize)];
      return Ok(volumes[id]);
    }

    method ExportVolume(id: string, info: ExportInfo) returns (r: Result<Volume>)
      modifies this
      ensures Outcome(View(), r.Failure()) == Step(old(View()), Command.ExportVolume(id, info))
      ensures old(Valid()) ==> Valid()
      ensures r.Ok? ==> id in volumes && r.value == volumes[id]
    {
      hide Sustained;
      if Valid() {
        SustainedStep(View(), Command.ExportVolume(id, info));
      }
      if id !in volumes {
        return Err(VolumeNotFound);
      }
      if volumes[id].inUse {
        return Err(VolumeAlreadyExported);
      }
      volumes := volumes[id := volumes[id].(inUse := true)];
      volumes := volumes[id := volumes[id].(exported := Some(info))];
      assert View() == Step(old(View()), Command.ExportVolume(id, info)).next;
      return Ok(volumes[id]);
    }

    method UnexportVolume(id: string) returns (r: Result<Volume>)
      modifies this
      ensures Outcome(View(), r.Failure()) == Step(old(View()), Command.UnexportVolume(id))
      ensures old(Valid()) ==> Valid()
      ensures r.Ok? ==> id in volumes && r.value == volumes[id]
    {
      hide Sustained;
      if Valid() {
        SustainedStep(View(), Command.UnexportVolume(id));
      }
      if id !in volumes {
        return Err(VolumeNotFound);
      }
      if !volumes[id].inUse {
        return Err(VolumeNotExported);
      }
      volumes := volumes[id := volumes[id].(inUse := false)];
      volumes := volumes[id := volumes[id].(exported := None)];
      assert View() == Step(old(View()), Command.UnexportVolume(id)).next;
      return Ok(volumes[id]);
    }

    method CreateSnapshot(id: string, snapshotId: string) returns (r: Result<Snapshot>)
      modifies this
      ensures Outcome(View(), r.Failure()) == Step(old(View()), Command.CreateSnapshot(id, snapshotId))
      ensures old(Valid()) ==> Valid()
      ensures r.Ok? ==> snapshotId in snapshots && r.value == snapshots[snapshotId]
    {
      hide Sustained;
      if Valid() {
        SustainedStep(View(), Command.CreateSnapshot(id, snapshotId));
      }
      if snapshotId == "" {
        return Err(EmptySnapshotId);
      }
      if snapshotId in snapshots {
        return Err(SnapshotExists);
      }
      if id !in volumes {
        return Err(VolumeNotFound);
      }
      var v := volumes[id];
      var snap := Snapshot(id, v.size, []);
      snapshots := snapshots[snapshotId := snap];
      volumes := volumes[id := v.(snapshots := v.snapshots + [snapshotId])];
      return Ok(snap);
    }

    method DeleteSnapshot(snapshotId: string) returns (err: Option<Error>)
      modifies this
      ensures Outcome(View(), err) == Step(old(View()), Command.DeleteSnapshot(snapshotId))
      ensures old(Valid()) ==> Valid()
    {
      hide Sustained;
      if Valid() {
        SustainedStep(View(), Command.DeleteSnapshot(snapshotId));
      }
      if snapshotId !in snapshots {
        return Some(SnapshotNotFound);
      }
      var snap := snapshots[snapshotId];
      if |snap.childClones| > 0 {
        return Some(SnapshotHasClones);
      }
      if snap.volume in volumes {
        var v := volumes[snap.volume];
        var rest := Unlist(v.snapshots, snapshotId);
        volumes := volumes[snap.volume := v.(snapshots := rest)];
      }
      snapshots := snapshots - {snapshotId};
      return None;
    }

    method CloneFromSnapshot(snapshotId: string, id: string) returns (r: Result<Volume>)
      modifies this
      ensures Outcome(View(), r.Failure()) == Step(old(View()), Command.CloneFromSnapshot(snapshotId, id))
      ensures old(Valid()) ==> Valid()
      ensures r.Ok? ==> id in volumes && r.value == volumes[id]
    {
      hide Sustained;
      if Valid() {
        SustainedStep(View(), Command.CloneFromSnapshot(snapshotId, id));
      }
      if id == "" {
        return Err(EmptyVolumeId);
      }
      if id in volumes {
        return Err(VolumeExists);
      }
      if snapshotId !in snapshots {
        return Err(SnapshotNotFound);
      }
      var snap := snapshots[snapshotId];
      if snap.volume !in volumes {
        return Err(VolumeNotFound);
      }
      var source := volumes[snap.volume];
      if source.backend !in backends {
        return Err(BackendNotFound);
      }
      var b := backends[source.backend];
      if b.state != "active" {
        return Err(BackendNotActive);
      }
      if b.alloc + snap.size > Scaled(b.total, b.ratio) {
        return Err(InsufficientCapacity);
      }
      backends := backends[source.backend := b.(alloc := b.alloc + snap.size)];
      var clone := Volume(source.backend, snap.size, 0, true, false, None, [], snapshotId);
      volumes := volumes[id := clone];
      snapshots := snapshots[snapshotId := snap.(childClones := snap.childClones + [id])];
      return Ok(clone);
    }

    method StartFlatten(id: string) returns (r: Result<nat>)
      modifies this
      ensures Outcome(View(), r.Failure()) == Step(old(View()), Command.StartFlatten(id))
      ensures old(Valid()) ==> Valid()
      ensures r.Ok? ==> r.value == opCounter && r.value in operations
    {
      hide Sustained;
      if Valid() {
        SustainedStep(View(), Command.StartFlatten(id));
      }
      if id !in volumes {
        return Err(VolumeNotFound);
      }
      if volumes[id].parent == "" {
        return Err(VolumeNoParent);
      }
      opCounter := opCounter + 1;
      operations := operations[opCounter := Operation(id, Running, 0)];
      flattenWorkers := flattenWorkers[opCounter := FlattenWorker(1, id)];
      return Ok(opCounter);
    }

    /** A clone becomes a volume of its own, and one entry for it goes from the list of its parent. */
    method CutLoose(id: string)
      requires id in volumes
      modifies this`volumes, this`snapshots
      ensures volumes == old(volumes)[id := Flattened(old(volumes)[id])]
      ensures snapshots == Disowned(old(snapshots), old(volumes)[id].parent, id)
    {
      var v := volumes[id];
      volumes := volumes[id := v.(consumed := v.size, parent := "")];
      if v.parent in snapshots {
        var snap := snapshots[v.parent];
        var rest := Unlist(snap.childClones, id);
        snapshots := snapshots[v.parent := snap.(childClones := rest)];
      }
    }

    /** The next locked region of a flatten worker. */
    method RunFlatten(op: nat)
      modifies this
      ensures View() == Step(old(View()), FlattenStep(op)).next
      ensures old(Valid()) ==> Valid()
    {
      hide Sustained, Flattened, Disowned, Step;
      if Valid() {
        SustainedStep(View(), FlattenStep(op));
      }
      WorkerRegions(View(), op);
      if op !in flattenWorkers {
        return;
      }
      var w := flattenWorkers[op];
      if op !in operations {
        flattenWorkers := flattenWorkers - {op};
        return;
      }
      if w.pc <= 10 {
        operations := operations[op := operations[op].(progress := 10 * w.pc)];
        flattenWorkers := flattenWorkers[op := w.(pc := w.pc + 1)];
        return;
      }
      if w.volume in volumes {
        CutLoose(w.volume);
        operations := operations[op := operations[op].(state := OperationCompleted, progress := 100)];
      } else {
        operations := operations[op := operations[op].(state := OperationFailed)];
      }
      flattenWorkers := flattenWorkers - {op};
    }

    method StartMigration(id: string, dest: string) returns (r: Result<nat>)
      modifies this
      ensures Outcome(View(), r.Failure()) == Step(old(View()), Command.StartMigration(id, dest))
      ensures old(Valid()) ==> Valid()
      ensures r.Ok? ==> r.value == opCounter && r.value in migrations
    {
      hide Sustained, Charge, Fits;
      if Valid() {
        SustainedStep(View(), Command.StartMigration(id, dest));
      }
      if id !in volumes {
        return Err(VolumeNotFound);
      }
      var v := volumes[id];
      if |v.snapshots| > 0 {
        return Err(VolumeHasSnapshots);
      }
      if dest !in backends {
        return Err(BackendNotFound);
      }
      var charged := Admit(backends[dest], v.size, v.thin);
      if charged.None? {
        return Err(InsufficientCapacity);
      }
      opCounter := opCounter + 1;
      migrations := migrations[opCounter := Migration(id, v.backend, dest, Preparing, 0, 0, false)];
      migrationWorkers := migrationWorkers[opCounter := MigrationWorker(0, id, v.backend, dest, v.size, v.thin)];
      return Ok(opCounter);
    }

    method CancelMigration(mig: nat) returns (err: Option<Error>)
      modifies this
      ensures Outcome(View(), err) == Step(old(View()), Command.CancelMigration(mig))
      ensures old(Valid()) ==> Valid()
    {
      hide Sustained;
      if Valid() {
        SustainedStep(View(), Command.CancelMigration(mig));
      }
      if mig !in migrations {
        return Some(MigrationNotFound);
      }
      var m := migrations[mig];
      if m.state != Preparing && m.state != Transferring {
        return Some(CannotCancel(m.state));
      }
      migrations := migrations[mig := m.(cancelled := true, state := Failed)];
      return None;
    }

    /** The captured capacity moves from the captured source to the destination. */
    method MoveCapacity(w: MigrationWorker)
      modifies this`backends
      ensures backends == Rebooked(old(backends), w)
    {
      if w.source in backends {
        var b := backends[w.source];
        b := b.(alloc := b.alloc - w.size);
        if !w.thin {
          b := b.(used := b.used - w.size);
        }
        backends := backends[w.source := b];
      }
      if w.dest in backends {
        var b := backends[w.dest];
        b := b.(alloc := b.alloc + w.size);
        if !w.thin {
          b := b.(used := b.used + w.size);
        }
        backends := backends[w.dest := b];
      }
    }

    /** The last region of a migration worker: the volume moves, if it is still there. */
    method Arrive(mig: nat)
      requires mig in migrationWorkers && mig in migrations
      modifies this`backends, this`volumes, this`migrations
      ensures
        var w := migrationWorkers[mig];
        var found := w.volume in old(volumes);
        && backends == (if found then Rebooked(old(backends), w) else old(backends))
        && volumes == (if found then old(volumes)[w.volume := old(volumes)[w.volume].(backend := w.dest)] else old(volumes))
        && migrations == old(migrations)[mig := MigrationAfter(old(migrations)[mig], w, found)]
    {
      hide MigrationAfter, Rebooked;
      var w := migrationWorkers[mig];
      var m := NextRecord(migrations[mig], w, w.volume in volumes);
      if w.volume in volumes {
        MoveCapacity(w);
        volumes := volumes[w.volume := volumes[w.volume].(backend := w.dest)];
      }
      migrations := migrations[mig := m];
    }

    /** The next locked region of a migration worker. */
    method RunMigration(mig: nat)
      modifies this
      ensures View() == Step(old(View()), MigrationStep(mig)).next
      ensures old(Valid()) ==> Valid()
    {
      hide Sustained, MigrationAfter, Rebooked, Step;
      if Valid() {
        SustainedStep(View(), MigrationStep(mig));
      }
      WorkerRegions(View(), mig);
      if mig !in migrationWorkers {
        return;
      }
      var w := migrationWorkers[mig];
      if mig !in migrations || migrations[mig].cancelled {
        migrationWorkers := migrationWorkers - {mig};
        return;
      }
      if w.pc <= 11 {
        var m := NextRecord(migrations[mig], w, w.volume in volumes);
        migrations := migrations[mig := m];
        migrationWorkers := migrationWorkers[mig := w.(pc := w.pc + 1)];
      } else {
        Arrive(mig);
        migrationWorkers := migrationWorkers - {mig};
      }
    }
  }
}
