/** What the storage calls accept and what they leave, call by call, and what holds of them over runs. */
module StorageCalls {
  import opened Basics
  import opened StorageModel

  /** A refused call changes nothing. */
  lemma {:induction false} RefusedChangesNothing(s: State, c: Command)
    requires Step(s, c).err != None
    ensures Step(s, c).next == s
  {
    hide Check, Apply;
  }

  // ---- Admission --------------------------------------------------------------------------------------

  /** What fits on a backend: thin space within the capacity times the over-provisioning ratio, thick space
      within the capacity. */
  predicate FitsOn(b: Backend, amount: int, thin: bool)
  {
    if thin then (b.alloc + amount) as real <= b.total as real * b.ratio else b.used + amount <= b.total
  }

  lemma {:induction false} FitsIs(b: Backend, amount: int, thin: bool)
    requires b.total >= 0 && b.ratio >= 0.0
    ensures Fits(b, amount, thin) <==> FitsOn(b, amount, thin)
  {
    assert b.total as real * b.ratio >= 0.0;
    TruncCuts(b.total as real * b.ratio);
    hide Trunc;
  }

  /** A volume is created if and only if its id is not blank and free, its backend is registered and active, and it
      fits there. */
  lemma {:induction false} CreateIff(s: State, id: string, v: Volume)
    requires v.backend in s.backends ==> s.backends[v.backend].total >= 0 && s.backends[v.backend].ratio >= 0.0
    ensures Step(s, CreateVolume(id, v)).err == None <==>
            && id != "" && id !in s.volumes && v.backend in s.backends
            && s.backends[v.backend].state == "active" && FitsOn(s.backends[v.backend], v.size, v.thin)
    ensures
      var err := Step(s, CreateVolume(id, v)).err;
      && (err == Some(EmptyVolumeId) <==> id == "")
      && (err == Some(VolumeExists) <==> id != "" && id in s.volumes)
      && (err == Some(BackendNotFound) <==> id != "" && id !in s.volumes && v.backend !in s.backends)
      && (err == Some(BackendNotActive) <==>
          id != "" && id !in s.volumes && v.backend in s.backends && s.backends[v.backend].state != "active")
  {
    hide Apply, Fits, FitsOn;
    if v.backend in s.backends {
      FitsIs(s.backends[v.backend], v.size, v.thin);
    }
  }

  /** A volume is extended if and only if it exists, grows, and the difference fits on its backend. */
  lemma {:induction false} ExtendIff(s: State, id: string, newSize: int)
    requires forall b :: b in s.backends ==> s.backends[b].total >= 0 && s.backends[b].ratio >= 0.0
    ensures Step(s, ExtendVolume(id, newSize)).err == None <==>
            && id in s.volumes && newSize > s.volumes[id].size && s.volumes[id].backend in s.backends
            && FitsOn(s.backends[s.volumes[id].backend], newSize - s.volumes[id].size, s.volumes[id].thin)
    ensures Step(s, ExtendVolume(id, newSize)).err == Some(ShrinkNotAllowed) <==>
            id in s.volumes && newSize <= s.volumes[id].size
  {
    hide Apply, Fits, FitsOn;
    if id in s.volumes && s.volumes[id].backend in s.backends {
      FitsIs(s.backends[s.volumes[id].backend], newSize - s.volumes[id].size, s.volumes[id].thin);
    }
  }

  /** A clone is made if and only if its id is free, the snapshot, its source volume and that volume's backend are
      there and active, and the snapshot's size fits there as thin space. */
  lemma {:induction false} CloneIff(s: State, x: string, id: string)
    requires forall b :: b in s.backends ==> s.backends[b].total >= 0 && s.backends[b].ratio >= 0.0
    ensures Step(s, CloneFromSnapshot(x, id)).err == None <==>
            && id != "" && id !in s.volumes && x in s.snapshots && s.snapshots[x].volume in s.volumes
            && var home := s.volumes[s.snapshots[x].volume].backend;
               && home in s.backends && s.backends[home].state == "active"
               && FitsOn(s.backends[home], s.snapshots[x].size, true)
  {
    hide Apply, Fits, FitsOn;
    if x in s.snapshots && s.snapshots[x].volume in s.volumes && s.volumes[s.snapshots[x].volume].backend in s.backends {
      FitsIs(s.backends[s.volumes[s.snapshots[x].volume].backend], s.snapshots[x].size, true);
    }
  }

  /** A migration is started if and only if the volume exists without snapshots and would fit on a registered
      destination. */
  lemma {:induction false} MigrateIff(s: State, id: string, dest: string)
    requires forall b :: b in s.backends ==> s.backends[b].total >= 0 && s.backends[b].ratio >= 0.0
    ensures Step(s, StartMigration(id, dest)).err == None <==>
            && id in s.volumes && s.volumes[id].snapshots == [] && dest in s.backends
            && FitsOn(s.backends[dest], s.volumes[id].size, s.volumes[id].thin)
    ensures Step(s, StartMigration(id, dest)).err == Some(VolumeHasSnapshots) <==>
            id in s.volumes && s.volumes[id].snapshots != []
  {
    hide Apply, Fits, FitsOn;
    if id in s.volumes && dest in s.backends {
      FitsIs(s.backends[dest], s.volumes[id].size, s.volumes[id].thin);
    }
  }

  /** When the other calls are accepted. */
  lemma {:induction false} OthersIff(s: State, id: string, b: Backend, info: ExportInfo, x: string, st: string)
    ensures Step(s, AddBackend(id, b)).err == None <==> id != "" && id !in s.backends
    ensures Step(s, SetBackendState(id, st)).err == None <==> id in s.backends
    ensures Step(s, DeleteVolume(id)).err == None <==>
            id in s.volumes && !s.volumes[id].inUse && s.volumes[id].snapshots == []
    ensures Step(s, ExportVolume(id, info)).err == None <==> id in s.volumes && !s.volumes[id].inUse
    ensures Step(s, UnexportVolume(id)).err == None <==> id in s.volumes && s.volumes[id].inUse
    ensures Step(s, CreateSnapshot(id, x)).err == None <==> x != "" && x !in s.snapshots && id in s.volumes
    ensures Step(s, DeleteSnapshot(x)).err == None <==> x in s.snapshots && s.snapshots[x].childClones == []
    ensures Step(s, StartFlatten(id)).err == None <==> id in s.volumes && s.volumes[id].parent != ""
  {
    hide Apply, Fits;
  }

  /** Which error a refused call answers: the first reason in the order in which the store looks. */
  lemma {:induction false} ErrorsOfVolumes(s: State, id: string, newSize: int, info: ExportInfo)
    ensures id !in s.volumes ==>
              && Step(s, DeleteVolume(id)).err == Step(s, ExtendVolume(id, newSize)).err == Some(VolumeNotFound)
              && Step(s, ExportVolume(id, info)).err == Step(s, UnexportVolume(id)).err == Some(VolumeNotFound)
              && Step(s, StartFlatten(id)).err == Some(VolumeNotFound)
    ensures id in s.volumes ==>
              var v := s.volumes[id];
              && (v.inUse ==> Step(s, DeleteVolume(id)).err == Some(VolumeInUse))
              && (!v.inUse && v.snapshots != [] ==> Step(s, DeleteVolume(id)).err == Some(VolumeHasSnapshots))
              && (newSize > v.size && v.backend !in s.backends ==> Step(s, ExtendVolume(id, newSize)).err == Some(BackendNotFound))
              && (v.inUse ==> Step(s, ExportVolume(id, info)).err == Some(VolumeAlreadyExported))
              && (!v.inUse ==> Step(s, UnexportVolume(id)).err == Some(VolumeNotExported))
              && (v.parent == "" ==> Step(s, StartFlatten(id)).err == Some(VolumeNoParent))
  {
    hide Apply, Fits;
  }

  lemma {:induction false} ErrorsOfOthers(s: State, id: string, x: string, dest: string, b: Backend, st: string)
    ensures
      var err := Step(s, AddBackend(id, b)).err;
      (err == Some(EmptyBackendId) <==> id == "") && (err == Some(BackendExists) <==> id != "" && id in s.backends)
    ensures id !in s.backends ==> Step(s, SetBackendState(id, st)).err == Some(BackendNotFound)
    ensures
      var err := Step(s, CreateSnapshot(id, x)).err;
      && (err == Some(EmptySnapshotId) <==> x == "") && (err == Some(SnapshotExists) <==> x != "" && x in s.snapshots)
      && (err == Some(VolumeNotFound) <==> x != "" && x !in s.snapshots && id !in s.volumes)
    ensures
      var err := Step(s, DeleteSnapshot(x)).err;
      && (err == Some(SnapshotNotFound) <==> x !in s.snapshots)
      && (err == Some(SnapshotHasClones) <==> x in s.snapshots && s.snapshots[x].childClones != [])
    ensures
      var err := Step(s, StartMigration(id, dest)).err;
      && (err == Some(VolumeNotFound) <==> id !in s.volumes)
      && (err == Some(BackendNotFound) <==> id in s.volumes && s.volumes[id].snapshots == [] && dest !in s.backends)
  {
    hide Apply, Fits;
  }

  lemma {:induction false} ErrorsOfClones(s: State, x: string, id: string)
    ensures
      var err := Step(s, CloneFromSnapshot(x, id)).err;
      && (err == Some(EmptyVolumeId) <==> id == "") && (err == Some(VolumeExists) <==> id != "" && id in s.volumes)
      && (err == Some(SnapshotNotFound) <==> id != "" && id !in s.volumes && x !in s.snapshots)
      && (err == Some(VolumeNotFound) <==>
          id != "" && id !in s.volumes && x in s.snapshots && s.snapshots[x].volume !in s.volumes)
      && (id != "" && id !in s.volumes && x in s.snapshots && s.snapshots[x].volume in s.volumes ==>
            var home := s.volumes[s.snapshots[x].volume].backend;
            && (err == Some(BackendNotFound) <==> home !in s.backends)
            && (err == Some(BackendNotActive) <==> home in s.backends && s.backends[home].state != "active"))
      && (err == None || err.value in {EmptyVolumeId, VolumeExists, SnapshotNotFound, VolumeNotFound, BackendNotFound,
            BackendNotActive, InsufficientCapacity})
  {
    hide Apply, Fits;
  }

  // ---- What the calls leave -----------------------------------------------------------------------------

  /** Nothing but these fields differs. */
  predicate Elsewhere(s: State, s': State)
  {
    && s'.operations == s.operations && s'.migrations == s.migrations && s'.opCounter == s.opCounter
    && s'.flattenWorkers == s.flattenWorkers && s'.migrationWorkers == s.migrationWorkers
  }

  /** A new backend takes "active" for a blank state and one for a zero ratio; a new volume is not in use and has
      consumed nothing, and its size is booked on its backend, as used too if it is thick. */
  lemma {:induction false} NewLeaves(s: State, id: string, b: Backend, v: Volume)
    ensures Step(s, AddBackend(id, b)).err == None ==>
              Step(s, AddBackend(id, b)).next ==
              s.(backends := s.backends[id := Backend(b.total, b.used, b.alloc,
                   if b.state == "" then "active" else b.state, if b.ratio == 0.0 then 1.0 else b.ratio)])
    ensures Step(s, CreateVolume(id, v)).err == None ==>
              var s' := Step(s, CreateVolume(id, v)).next;
              && s'.volumes == s.volumes[id := v.(inUse := false, consumed := 0)]
              && s'.backends.Keys == s.backends.Keys && s'.snapshots == s.snapshots && Elsewhere(s, s')
              && forall b :: b in s.backends ==>
                   s'.backends[b] ==
                   if b == v.backend
                   then s.backends[b].(alloc := s.backends[b].alloc + v.size,
                                       used := s.backends[b].used + if v.thin then 0 else v.size)
                   else s.backends[b]
  {
    hide Fits;
    if Step(s, CreateVolume(id, v)).err == None {
      assert v.backend in s.backends;
    }
  }

  /** Deleting gives back exactly what creating took. */
  lemma {:induction false} DeleteUndoesCreate(s: State, id: string, v: Volume)
    requires Step(s, CreateVolume(id, v)).err == None && v.snapshots == []
    ensures Step(Step(s, CreateVolume(id, v)).next, DeleteVolume(id)) == Outcome(s, None)
  {
    var s' := Step(s, CreateVolume(id, v)).next;
    NewLeaves(s, id, s.backends[v.backend], v);
    var b := s.backends[v.backend];
    assert s'.backends[v.backend := Charge(s'.backends[v.backend], -v.size, v.thin)] == s.backends;
    assert s'.volumes - {id} == s.volumes;
    hide Fits;
  }

  /** Extending sets the size and books the difference. */
  lemma {:induction false} ExtendLeaves(s: State, id: string, newSize: int)
    requires Step(s, ExtendVolume(id, newSize)).err == None
    ensures id in s.volumes && s.volumes[id].backend in s.backends
    ensures
      var v, s' := s.volumes[id], Step(s, ExtendVolume(id, newSize)).next;
      var b := s.backends[v.backend];
      && s'.volumes == s.volumes[id := v.(size := newSize)]
      && s'.backends == s.backends[v.backend :=
           b.(alloc := b.alloc + newSize - v.size, used := b.used + if v.thin then 0 else newSize - v.size)]
      && s'.snapshots == s.snapshots && Elsewhere(s, s')
  {
    hide Fits;
  }

  /** Extending twice is extending once to the last size. */
  lemma {:induction false} ExtendTwice(s: State, id: string, size: int, newSize: int)
    requires Step(s, ExtendVolume(id, size)).err == None
    requires Step(Step(s, ExtendVolume(id, size)).next, ExtendVolume(id, newSize)).err == None
    requires Step(s, ExtendVolume(id, newSize)).err == None
    ensures Step(Step(s, ExtendVolume(id, size)).next, ExtendVolume(id, newSize)).next == Step(s, ExtendVolume(id, newSize)).next
  {
    ExtendLeaves(s, id, size);
    ExtendLeaves(s, id, newSize);
    ExtendLeaves(Step(s, ExtendVolume(id, size)).next, id, newSize);
    hide Step;
    var once, twice := Step(s, ExtendVolume(id, newSize)).next, Step(Step(s, ExtendVolume(id, size)).next, ExtendVolume(id, newSize)).next;
    assert twice.volumes == once.volumes && twice.backends == once.backends;
  }

  /** Exporting records the export and marks the volume in use; unexporting takes both back. */
  lemma {:induction false} UnexportUndoesExport(s: State, id: string, info: ExportInfo)
    requires Step(s, ExportVolume(id, info)).err == None
    ensures id in s.volumes
    ensures
      var s' := Step(s, ExportVolume(id, info)).next;
      && s' == s.(volumes := s.volumes[id := s.volumes[id].(inUse := true, exported := Some(info))])
      && Step(s', UnexportVolume(id)) ==
         Outcome(s.(volumes := s.volumes[id := s.volumes[id].(exported := None)]), None)
  {
    var v, s' := s.volumes[id], Step(s, ExportVolume(id, info)).next;
    assert s'.volumes[id := s'.volumes[id].(inUse := false, exported := None)] == s.volumes[id := v.(exported := None)];
  }

  /** A snapshot has the size its volume has then, no clones, and stands last on the volume's list; deleting it
      again undoes that. */
  lemma {:induction false} DeleteUndoesSnapshot(s: State, id: string, x: string)
    requires Step(s, CreateSnapshot(id, x)).err == None
    ensures id in s.volumes
    ensures
      var v, s' := s.volumes[id], Step(s, CreateSnapshot(id, x)).next;
      && s' == s.(snapshots := s.snapshots[x := Snapshot(id, v.size, [])],
                  volumes := s.volumes[id := v.(snapshots := v.snapshots + [x])])
      && (x !in v.snapshots ==> Step(s', DeleteSnapshot(x)) == Outcome(s, None))
  {
    var v, s' := s.volumes[id], Step(s, CreateSnapshot(id, x)).next;
    if x !in v.snapshots {
      RemoveAppended(v.snapshots, x);
      assert s'.volumes[id := s'.volumes[id].(snapshots := v.snapshots)] == s.volumes;
      assert s'.snapshots - {x} == s.snapshots;
    }
  }

  lemma {:induction false} RemoveAppended(xs: seq<string>, x: string)
    requires x !in xs
    ensures RemoveFirst(xs + [x], x) == xs
  {
    if xs == [] {
      assert xs + [x] == [x] && [x][1..] == [];
    } else {
      assert (xs + [x])[1..] == xs[1..] + [x];
      RemoveAppended(xs[1..], x);
      assert xs == [xs[0]] + xs[1..];
    }
  }

  /** A clone is thin, of the size of the snapshot, on the backend its source is on now, has the snapshot for its
      parent and stands last on its list; its size is booked as allocated. */
  lemma {:induction false} CloneLeaves(s: State, x: string, id: string)
    requires Step(s, CloneFromSnapshot(x, id)).err == None
    ensures x in s.snapshots && s.snapshots[x].volume in s.volumes
    ensures s.volumes[s.snapshots[x].volume].backend in s.backends
    ensures
      var s', snap := Step(s, CloneFromSnapshot(x, id)).next, s.snapshots[x];
      var home := s.volumes[snap.volume].backend;
      && s'.volumes == s.volumes[id := Volume(home, snap.size, 0, true, false, None, [], x)]
      && s'.snapshots == s.snapshots[x := snap.(childClones := snap.childClones + [id])]
      && s'.backends == s.backends[home := s.backends[home].(alloc := s.backends[home].alloc + snap.size)]
      && Elsewhere(s, s')
  {
    hide Fits;
  }

  /** Deleting a clone again undoes making it, but for the entry on the snapshot's list. */
  lemma {:induction false} DeleteHalfUndoesClone(s: State, x: string, id: string)
    requires Step(s, CloneFromSnapshot(x, id)).err == None
    ensures x in s.snapshots
    ensures Step(Step(s, CloneFromSnapshot(x, id)).next, DeleteVolume(id)) ==
            Outcome(s.(snapshots := s.snapshots[x := s.snapshots[x].(childClones := s.snapshots[x].childClones + [id])]), None)
  {
    CloneLeaves(s, x, id);
    var s' := Step(s, CloneFromSnapshot(x, id)).next;
    var home := s.volumes[s.snapshots[x].volume].backend;
    assert id !in s.volumes;
    assert s'.volumes - {id} == s.volumes;
    assert s'.backends[home := Charge(s'.backends[home], -s.snapshots[x].size, true)] == s.backends;
    hide Fits;
  }

  /** A started flatten or migration is a new record with the next number, and a worker about to begin. */
  lemma {:induction false} StartsLeave(s: State, id: string, dest: string)
    ensures Step(s, StartFlatten(id)).err == None ==>
              var s', n := Step(s, StartFlatten(id)).next, s.opCounter + 1;
              && s'.opCounter == n && s'.operations == s.operations[n := Operation(id, Running, 0)]
              && s'.flattenWorkers == s.flattenWorkers[n := FlattenWorker(1, id)]
              && s'.backends == s.backends && s'.volumes == s.volumes && s'.snapshots == s.snapshots
              && s'.migrations == s.migrations && s'.migrationWorkers == s.migrationWorkers
    ensures Step(s, StartMigration(id, dest)).err == None ==>
              var s', n := Step(s, StartMigration(id, dest)).next, s.opCounter + 1;
              && id in s.volumes
              && var v := s.volumes[id];
                 && s'.opCounter == n
                 && s'.migrations == s.migrations[n := Migration(id, v.backend, dest, Preparing, 0, 0, false)]
                 && s'.migrationWorkers == s.migrationWorkers[n := MigrationWorker(0, id, v.backend, dest, v.size, v.thin)]
                 && s'.backends == s.backends && s'.volumes == s.volumes && s'.snapshots == s.snapshots
                 && s'.operations == s.operations && s'.flattenWorkers == s.flattenWorkers
  {
    hide Fits;
  }

  // ---- Exports over runs ----------------------------------------------------------------------------------

  /** The volume is exported to this host. */
  predicate Exported(s: State, id: string, info: ExportInfo)
  {
    id in s.volumes && s.volumes[id].inUse && s.volumes[id].exported == Some(info)
  }

  lemma {:induction false} ExportedStep(s: State, c: Command, id: string, info: ExportInfo)
    requires Exported(s, id, info) && c != UnexportVolume(id)
    ensures Exported(Step(s, c).next, id, info)
  {
    hide Fits;
    if Check(s, c).None? {
      if c.MigrationStep? {
        if Moves(s, c.worker) {
        } else {
        }
      } else if c.FlattenStep? {
        if Flattens(s, c.worker) {
        } else {
        }
      } else {
      }
    }
  }

  /** An exported volume stays exported to the same host, and cannot be deleted or exported again, at every point of
      every run until it is unexported. */
  lemma {:induction false} ExportedStays(s: State, cs: seq<Command>, id: string, info: ExportInfo, other: ExportInfo)
    requires Exported(s, id, info) && UnexportVolume(id) !in cs
    ensures Exported(Run(s, cs), id, info)
    ensures Step(Run(s, cs), DeleteVolume(id)).err == Some(VolumeInUse)
    ensures Step(Run(s, cs), ExportVolume(id, other)).err == Some(VolumeAlreadyExported)
    decreases |cs|
  {
    if cs != [] {
      ExportedStep(s, cs[0], id, info);
      hide Step;
      ExportedStays(Step(s, cs[0]).next, cs[1..], id, info, other);
    }
  }

  // ---- Backend states over runs ---------------------------------------------------------------------------

  /** Bookings move the counters of a backend and nothing else about it. */
  predicate SameBackend(b: Backend, b': Backend)
  {
    b'.state == b.state && b'.total == b.total && b'.ratio == b.ratio
  }

  lemma {:induction false} BookKeeps(backends: map<string, Backend>, id: string, amount: int, thin: bool, b: string)
    requires b in backends
    ensures b in Book(backends, id, amount, thin) && SameBackend(backends[b], Book(backends, id, amount, thin)[b])
  {
  }

  lemma {:induction false} RebookKeeps(backends: map<string, Backend>, w: MigrationWorker, b: string)
    requires b in backends
    ensures b in Rebooked(backends, w) && SameBackend(backends[b], Rebooked(backends, w)[b])
  {
    hide Book;
    BookKeeps(backends, w.source, -w.size, w.thin, b);
    BookKeeps(Book(backends, w.source, -w.size, w.thin), w.dest, w.size, w.thin, b);
  }

  lemma {:induction false} BackendStep(s: State, c: Command, b: string)
    requires b in s.backends && !(c.SetBackendState? && c.id == b)
    ensures b in Step(s, c).next.backends && SameBackend(s.backends[b], Step(s, c).next.backends[b])
  {
    hide Fits, Book, Rebooked, Unlisted, Disowned, CloneOf;
    if Check(s, c).None? {
      match c
      case CreateVolume(_, v) => BookKeeps(s.backends, v.backend, v.size, v.thin, b);
      case DeleteVolume(id) =>
        var v := s.volumes[id];
        BookKeeps(s.backends, v.backend, -v.size, v.thin, b);
      case ExtendVolume(id, newSize) =>
        var v := s.volumes[id];
        BookKeeps(s.backends, v.backend, newSize - v.size, v.thin, b);
      case CloneFromSnapshot(x, _) =>
        var v := CloneOf(s, x);
        BookKeeps(s.backends, v.backend, v.size, true, b);
      case MigrationStep(mig) =>
        if Moves(s, mig) {
          RebookKeeps(s.backends, s.migrationWorkers[mig], b);
        }
      case _ =>
    }
  }

  /** A backend keeps its capacity, its ratio and the state it was set to until it is set again; while that is not
      "active" nothing is created or cloned onto it. */
  lemma {:induction false} BackendStays(s: State, cs: seq<Command>, b: string, st: string, id: string, v: Volume, x: string)
    requires b in s.backends && forall c :: c in cs ==> !(c.SetBackendState? && c.id == b)
    ensures
      var s' := Run(Step(s, SetBackendState(b, st)).next, cs);
      && b in s'.backends && s'.backends[b].state == st
      && s'.backends[b].total == s.backends[b].total && s'.backends[b].ratio == s.backends[b].ratio
      && (st != "active" && v.backend == b ==> Step(s', CreateVolume(id, v)).err != None)
      && (st != "active" && x in s'.snapshots && s'.snapshots[x].volume in s'.volumes ==>
            s'.volumes[s'.snapshots[x].volume].backend == b ==> Step(s', CloneFromSnapshot(x, id)).err != None)
  {
    BackendRun(Step(s, SetBackendState(b, st)).next, cs, b);
    hide Fits, Apply, Run;
  }

  lemma {:induction false} BackendRun(s: State, cs: seq<Command>, b: string)
    requires b in s.backends && forall c :: c in cs ==> !(c.SetBackendState? && c.id == b)
    ensures
      var s' := Run(s, cs);
      && b in s'.backends && s'.backends[b].state == s.backends[b].state
      && s'.backends[b].total == s.backends[b].total && s'.backends[b].ratio == s.backends[b].ratio
    decreases |cs|
  {
    hide Step;
    if cs != [] {
      BackendStep(s, cs[0], b);
      BackendRun(Step(s, cs[0]).next, cs[1..], b);
    }
  }
}
