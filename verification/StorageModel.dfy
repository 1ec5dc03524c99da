/** The storage simulator's state and its atomic steps.

    Every API call holds the store lock from start to end, so it is one step. A flatten or migration
    worker takes the lock once per phase; each of those locked regions is one step as well, and the
    worker's captured arguments and its position between regions are kept in `flattenWorkers` and
    `migrationWorkers`. A run is any interleaving of these steps. */
module StorageModel {
  import opened Basics

  datatype Backend = Backend(total: int, used: int, alloc: int, state: string, ratio: real)

  datatype ExportInfo = ExportInfo(hostId: string, protocol: string)

  /** `parent` is the parent snapshot id, "" for a volume that is not a clone. */
  datatype Volume = Volume(
    backend: string, size: int, consumed: int, thin: bool, inUse: bool,
    exported: Option<ExportInfo>, snapshots: seq<string>, parent: string)

  datatype Snapshot = Snapshot(volume: string, size: int, childClones: seq<string>)

  datatype OperationState = Running | OperationCompleted | OperationFailed

  datatype Operation = Operation(volume: string, state: OperationState, progress: int)

  datatype MigrationState = Preparing | Transferring | Finishing | Completed | Failed

  datatype Migration = Migration(
    volume: string, source: string, dest: string,
    state: MigrationState, progress: int, bytes: int, cancelled: bool)

  /** `pc` is the next locked region: 1 to 10 report progress, 11 completes. */
  datatype FlattenWorker = FlattenWorker(pc: nat, volume: string)

  /** The arguments captured by StartMigration, and the next locked region: 0 enters the transfer,
      1 to 10 report progress, 11 enters the finish, 12 moves the volume. */
  datatype MigrationWorker = MigrationWorker(
    pc: nat, volume: string, source: string, dest: string, size: int, thin: bool)

  datatype State = State(
    backends: map<string, Backend>,
    volumes: map<string, Volume>,
    snapshots: map<string, Snapshot>,
    operations: map<nat, Operation>,
    migrations: map<nat, Migration>,
    opCounter: nat,
    flattenWorkers: map<nat, FlattenWorker>,
    migrationWorkers: map<nat, MigrationWorker>)

  const EMPTY := State(map[], map[], map[], map[], map[], 0, map[], map[])

  datatype Error =
    | EmptyBackendId | BackendExists | BackendNotFound | BackendNotActive
    | EmptyVolumeId | VolumeExists | VolumeNotFound | VolumeInUse | VolumeHasSnapshots
    | VolumeAlreadyExported | VolumeNotExported | InsufficientCapacity | ShrinkNotAllowed
    | EmptySnapshotId | SnapshotExists | SnapshotNotFound | SnapshotHasClones
    | VolumeNoParent | MigrationNotFound | CannotCancel(state: MigrationState)

  /** The state after a call and the error it returned, if any. */
  datatype Outcome = Outcome(next: State, err: Option<Error>)

  datatype Command =
    | AddBackend(id: string, b: Backend)
    | SetBackendState(id: string, backendState: string)
    | CreateVolume(id: string, v: Volume)
    | DeleteVolume(id: string)
    | ExtendVolume(id: string, newSize: int)
    | ExportVolume(id: string, info: ExportInfo)
    | UnexportVolume(id: string)
    | CreateSnapshot(id: string, snapshotId: string)
    | DeleteSnapshot(snapshotId: string)
    | CloneFromSnapshot(snapshotId: string, id: string)
    | StartFlatten(id: string)
    | FlattenStep(worker: nat)
    | StartMigration(id: string, dest: string)
    | CancelMigration(migration: nat)
    | MigrationStep(worker: nat)

  /** Integer division toward zero, by ten. */
  function TenthOf(x: int): int
  {
    if x >= 0 then x / 10 else -((-x) / 10)
  }

  /** A capacity scaled by the over-provisioning ratio. */
  function Scaled(total: int, ratio: real): int
  {
    Trunc(total as real * ratio)
  }

  /** The thin-provisioning limit of a backend. */
  function MaxAlloc(b: Backend): int
  {
    Scaled(b.total, b.ratio)
  }

  /** Whether `amount` more fits: thin space against the over-provisioned total, thick space against
      what is physically used. */
  predicate Fits(b: Backend, amount: int, thin: bool)
  {
    if thin then b.alloc + amount <= MaxAlloc(b) else b.used + amount <= b.total
  }

  /** Both counters moved by an amount; thin space does not count as used. */
  function Charge(b: Backend, amount: int, thin: bool): Backend
  {
    b.(alloc := b.alloc + amount, used := if thin then b.used else b.used + amount)
  }

  /** The list without its first occurrence of `x`. */
  function RemoveFirst(xs: seq<string>, x: string): (r: seq<string>)
    ensures forall y :: y != x ==> (y in r <==> y in xs)
    ensures forall y :: y in r ==> y in xs
  {
    if xs == [] then [] else if xs[0] == x then xs[1..] else [xs[0]] + RemoveFirst(xs[1..], x)
  }

  /** The error a call returns before changing anything, in the order the store tests for them. */
  function Check(s: State, c: Command): Option<Error>
  {
    match c
    case AddBackend(id, _) =>
      if id == "" then Some(EmptyBackendId)
      else if id in s.backends then Some(BackendExists)
      else None
    case SetBackendState(id, _) =>
      if id !in s.backends then Some(BackendNotFound) else None
    case CreateVolume(id, v) =>
      if id == "" then Some(EmptyVolumeId)
      else if id in s.volumes then Some(VolumeExists)
      else if v.backend !in s.backends then Some(BackendNotFound)
      else if s.backends[v.backend].state != "active" then Some(BackendNotActive)
      else if !Fits(s.backends[v.backend], v.size, v.thin) then Some(InsufficientCapacity)
      else None
    case DeleteVolume(id) =>
      if id !in s.volumes then Some(VolumeNotFound)
      else if s.volumes[id].inUse then Some(VolumeInUse)
      else if |s.volumes[id].snapshots| > 0 then Some(VolumeHasSnapshots)
      else None
    case ExtendVolume(id, newSize) =>
      if id !in s.volumes then Some(VolumeNotFound)
      else
        var v := s.volumes[id];
        if newSize <= v.size then Some(ShrinkNotAllowed)
        else if v.backend !in s.backends then Some(BackendNotFound)
        else if !Fits(s.backends[v.backend], newSize - v.size, v.thin) then Some(InsufficientCapacity)
        else None
    case ExportVolume(id, _) =>
      if id !in s.volumes then Some(VolumeNotFound)
      else if s.volumes[id].inUse then Some(VolumeAlreadyExported)
      else None
    case UnexportVolume(id) =>
      if id !in s.volumes then Some(VolumeNotFound)
      else if !s.volumes[id].inUse then Some(VolumeNotExported)
      else None
    case CreateSnapshot(id, snapshotId) =>
      if snapshotId == "" then Some(EmptySnapshotId)
      else if snapshotId in s.snapshots then Some(SnapshotExists)
      else if id !in s.volumes then Some(VolumeNotFound)
      else None
    case DeleteSnapshot(snapshotId) =>
      if snapshotId !in s.snapshots then Some(SnapshotNotFound)
      else if |s.snapshots[snapshotId].childClones| > 0 then Some(SnapshotHasClones)
      else None
    case CloneFromSnapshot(snapshotId, id) =>
      if id == "" then Some(EmptyVolumeId)
      else if id in s.volumes then Some(VolumeExists)
      else if snapshotId !in s.snapshots then Some(SnapshotNotFound)
      else
        var snap := s.snapshots[snapshotId];
        if snap.volume !in s.volumes then Some(VolumeNotFound)
        else
          var home := s.volumes[snap.volume].backend;
          if home !in s.backends then Some(BackendNotFound)
          else if s.backends[home].state != "active" then Some(BackendNotActive)
          else if !Fits(s.backends[home], snap.size, true) then Some(InsufficientCapacity)
          else None
    case StartFlatten(id) =>
      if id !in s.volumes then Some(VolumeNotFound)
      else if s.volumes[id].parent == "" then Some(VolumeNoParent)
      else None
    case FlattenStep(_) => None
    case StartMigration(id, dest) =>
      if id !in s.volumes then Some(VolumeNotFound)
      else if |s.volumes[id].snapshots| > 0 then Some(VolumeHasSnapshots)
      else if dest !in s.backends then Some(BackendNotFound)
      else if !Fits(s.backends[dest], s.volumes[id].size, s.volumes[id].thin) then Some(InsufficientCapacity)
      else None
    case CancelMigration(mig) =>
      if mig !in s.migrations then Some(MigrationNotFound)
      else if s.migrations[mig].state != Preparing && s.migrations[mig].state != Transferring then
        Some(CannotCancel(s.migrations[mig].state))
      else None
    case MigrationStep(_) => None
  }

  /** A backend as AddBackend stores it: blank fields take their defaults. */
  function WithDefaults(b: Backend): Backend
  {
    b.(state := if b.state == "" then "active" else b.state,
       ratio := if b.ratio == 0.0 then 1.0 else b.ratio)
  }

  /** `amount` moved onto (or, when negative, off) a backend, if it is registered. */
  function Book(backends: map<string, Backend>, id: string, amount: int, thin: bool): map<string, Backend>
  {
    if id in backends then backends[id := Charge(backends[id], amount, thin)] else backends
  }

  /** The volumes after snapshot `snapshotId` is taken off the list of its source, if that exists. */
  function Unlisted(volumes: map<string, Volume>, source: string, snapshotId: string): map<string, Volume>
  {
    if source in volumes then
      var v := volumes[source];
      volumes[source := v.(snapshots := RemoveFirst(v.snapshots, snapshotId))]
    else
      volumes
  }

  /** A new clone of a snapshot: thin, on the backend its source volume is on now. */
  function CloneOf(s: State, snapshotId: string): Volume
    requires snapshotId in s.snapshots && s.snapshots[snapshotId].volume in s.volumes
  {
    var snap := s.snapshots[snapshotId];
    Volume(s.volumes[snap.volume].backend, snap.size, 0, true, false, None, [], snapshotId)
  }

  /** The state after a call that passed its checks. */
  function Apply(s: State, c: Command): State
    requires Check(s, c).None?
  {
    match c
    case AddBackend(id, b) => s.(backends := s.backends[id := WithDefaults(b)])
    case SetBackendState(id, st) => s.(backends := s.backends[id := s.backends[id].(state := st)])
    case CreateVolume(id, v) =>
      s.(backends := Book(s.backends, v.backend, v.size, v.thin),
         volumes := s.volumes[id := v.(inUse := false, consumed := 0)])
    case DeleteVolume(id) =>
      var v := s.volumes[id];
      s.(backends := Book(s.backends, v.backend, -v.size, v.thin), volumes := s.volumes - {id})
    case ExtendVolume(id, newSize) =>
      var v := s.volumes[id];
      s.(backends := Book(s.backends, v.backend, newSize - v.size, v.thin),
         volumes := s.volumes[id := v.(size := newSize)])
    case ExportVolume(id, info) =>
      s.(volumes := s.volumes[id := s.volumes[id].(inUse := true, exported := Some(info))])
    case UnexportVolume(id) =>
      s.(volumes := s.volumes[id := s.volumes[id].(inUse := false, exported := None)])
    case CreateSnapshot(id, snapshotId) =>
      var v := s.volumes[id];
      s.(snapshots := s.snapshots[snapshotId := Snapshot(id, v.size, [])],
         volumes := s.volumes[id := v.(snapshots := v.snapshots + [snapshotId])])
    case DeleteSnapshot(snapshotId) =>
      s.(volumes := Unlisted(s.volumes, s.snapshots[snapshotId].volume, snapshotId),
         snapshots := s.snapshots - {snapshotId})
    case CloneFromSnapshot(snapshotId, id) =>
      var snap, v := s.snapshots[snapshotId], CloneOf(s, snapshotId);
      s.(backends := Book(s.backends, v.backend, v.size, true),
         volumes := s.volumes[id := v],
         snapshots := s.snapshots[snapshotId := snap.(childClones := snap.childClones + [id])])
    case StartFlatten(id) =>
      var op := s.opCounter + 1;
      s.(opCounter := op,
         operations := s.operations[op := Operation(id, Running, 0)],
         flattenWorkers := s.flattenWorkers[op := FlattenWorker(1, id)])
    case FlattenStep(op) => FlattenRegion(s, op)
    case StartMigration(id, dest) =>
      var mig, v := s.opCounter + 1, s.volumes[id];
      s.(opCounter := mig,
         migrations := s.migrations[mig := Migration(id, v.backend, dest, Preparing, 0, 0, false)],
         migrationWorkers := s.migrationWorkers[mig := MigrationWorker(0, id, v.backend, dest, v.size, v.thin)])
    case CancelMigration(mig) =>
      s.(migrations := s.migrations[mig := s.migrations[mig].(cancelled := true, state := Failed)])
    case MigrationStep(mig) => MigrationRegion(s, mig)
  }

  /** One call or worker step: the state afterwards and the error returned, if any. */
  function Step(s: State, c: Command): Outcome
  {
    match Check(s, c)
    case Some(e) => Outcome(s, Some(e))
    case None => Outcome(Apply(s, c), None)
  }

  /** Whether the worker's next region is the last one and finds its volume. */
  predicate Flattens(s: State, op: nat)
  {
    && op in s.flattenWorkers && op in s.operations
    && s.flattenWorkers[op].pc > 10 && s.flattenWorkers[op].volume in s.volumes
  }

  function Flattened(v: Volume): Volume
  {
    v.(consumed := v.size, parent := "")
  }

  /** The snapshots after one entry for clone `id` is taken off the list of `parent`, if that exists. */
  function Disowned(snapshots: map<string, Snapshot>, parent: string, id: string): map<string, Snapshot>
  {
    if parent in snapshots then
      var snap := snapshots[parent];
      snapshots[parent := snap.(childClones := RemoveFirst(snap.childClones, id))]
    else
      snapshots
  }

  /** The operation record after the worker's next region. */
  function OperationAfter(o: Operation, w: FlattenWorker, found: bool): Operation
  {
    if w.pc <= 10 then o.(progress := 10 * w.pc)
    else if found then o.(state := OperationCompleted, progress := 100)
    else o.(state := OperationFailed)
  }

  /** One locked region of a flatten worker; the last one cuts the clone loose from whatever parent
      snapshot it has by then. A worker that has ended does nothing. */
  function FlattenRegion(s: State, op: nat): State
  {
    var last := Flattens(s, op);
    var id := if last then s.flattenWorkers[op].volume else "";
    s.(volumes := if last then s.volumes[id := Flattened(s.volumes[id])] else s.volumes,
       snapshots := if last then Disowned(s.snapshots, s.volumes[id].parent, id) else s.snapshots,
       operations := if op in s.flattenWorkers && op in s.operations
                     then s.operations[op := OperationAfter(s.operations[op], s.flattenWorkers[op], last)]
                     else s.operations,
       flattenWorkers := if op in s.flattenWorkers && op in s.operations && s.flattenWorkers[op].pc <= 10
                         then s.flattenWorkers[op := s.flattenWorkers[op].(pc := s.flattenWorkers[op].pc + 1)]
                         else s.flattenWorkers - {op})
  }

  const BYTES_PER_GB := 1024 * 1024 * 1024

  /** A migration still on its way: its worker has regions left and it was not cancelled. */
  predicate Live(s: State, mig: nat)
  {
    mig in s.migrationWorkers && mig in s.migrations && !s.migrations[mig].cancelled
  }

  /** Whether the worker's next region is the last one and finds its volume. */
  predicate Moves(s: State, mig: nat)
  {
    Live(s, mig) && s.migrationWorkers[mig].pc > 11 && s.migrationWorkers[mig].volume in s.volumes
  }

  /** The percentage reported after transfer step `i` of ten: nine per step, but 0.7 times 90 falls just short
      of 63 in double precision and is cut to 62. */
  function ProgressAt(i: nat): nat
  {
    if i == 7 then 62 else 9 * i
  }

  /** The migration record after the worker's next region. */
  function MigrationAfter(m: Migration, w: MigrationWorker, found: bool): Migration
  {
    if w.pc == 0 then m.(state := Transferring)
    else if w.pc <= 10 then m.(progress := ProgressAt(w.pc), bytes := TenthOf(w.size * BYTES_PER_GB * w.pc))
    else if w.pc == 11 then m.(state := Finishing)
    else if found then m.(state := Completed, progress := 100, bytes := w.size * BYTES_PER_GB)
    else m.(state := Failed)
  }

  /** The captured size and thin flag moved from the captured source to the destination. */
  function Rebooked(backends: map<string, Backend>, w: MigrationWorker): map<string, Backend>
  {
    Book(Book(backends, w.source, -w.size, w.thin), w.dest, w.size, w.thin)
  }

  /** One locked region of a migration worker; the last one moves the captured capacity and the volume.
      A worker that has ended, or that finds its migration cancelled, does nothing. */
  function MigrationRegion(s: State, mig: nat): State
  {
    if mig !in s.migrationWorkers then s
    else
      var w := s.migrationWorkers[mig];
      s.(backends := if Moves(s, mig) then Rebooked(s.backends, w) else s.backends,
         volumes := if Moves(s, mig)
                    then s.volumes[w.volume := s.volumes[w.volume].(backend := w.dest)]
                    else s.volumes,
         migrations := if Live(s, mig)
                       then s.migrations[mig := MigrationAfter(s.migrations[mig], w, w.volume in s.volumes)]
                       else s.migrations,
         migrationWorkers := if Live(s, mig) && w.pc <= 11
                             then s.migrationWorkers[mig := w.(pc := w.pc + 1)]
                             else s.migrationWorkers - {mig})
  }

  /** The state after a whole run. */
  function Run(s: State, cs: seq<Command>): State
    decreases |cs|
  {
    if cs == [] then s else Run(Step(s, cs[0]).next, cs[1..])
  }

  lemma {:induction false} RunConcat(s: State, cs: seq<Command>, more: seq<Command>)
    ensures Run(s, cs + more) == Run(Run(s, cs), more)
    decreases |cs|
  {
    hide Step;
    if cs == [] {
      assert cs + more == more;
    } else {
      assert (cs + more)[1..] == cs[1..] + more;
      RunConcat(Step(s, cs[0]).next, cs[1..], more);
    }
  }

  /** Only the three migration calls touch migrations and their workers. */
  lemma {:induction false} MigrationsUntouched(s: State, c: Command)
    requires !c.StartMigration? && !c.CancelMigration? && !c.MigrationStep?
    ensures Step(s, c).next.migrations == s.migrations
    ensures Step(s, c).next.migrationWorkers == s.migrationWorkers
    ensures Step(s, c).next.opCounter >= s.opCounter
  {
    if Check(s, c).None? {
    }
  }
}
