# Verification of the cirrus-sim simulators

A Dafny model of four stateful parts of the simulators, with proofs about every input, every run and every
interleaving they allow.

* **OVSDB transactions and monitors** (`ovn-sim/internal/ovsdb`). `OvsdbValues` holds column values, row conditions,
  mutations and named-UUID resolution; `OvsdbLaws` what they mean; `OvsdbLog` tables and change logs; `OvsdbStore` the
  store with its row loops; `OvsdbChanges` the logs the operations write; `OvsdbTransact` the meaning of a transaction and
  the engine that applies, logs and rolls back in place; `OvsdbOutcomes` what an outcome means; `OvsdbCells` what each
  operation does place by place; `OvsdbMonitor` the run of commits, deliveries and registrations; `OvsdbServer` the monitor manager and
  the request handling that takes those steps.
* **Storage allocator** (`storage-sim/internal/state`). `StorageModel` has one atomic step per API call and per locked
  region of a flatten or migration worker. `StorageLedger` maps every step to one booking on a capacity ledger, on which
  `StorageAccounting` proves conservation and exactness, `StorageBounds` the capacity bounds and `StorageMoves` the bounds
  in runs with migrations. `StorageLineage`, `StorageMirror` and `StorageStuck` are the snapshot and clone graph, `StorageMigrations` the
  life of a migration, `StorageCalls` what the calls accept and undo, `StorageRuns` concrete runs, `StorageStore` the calls themselves.
* **libvirt hosts** (`libvirt-sim/internal/state`). `LibvirtModel` has one step per call, `LibvirtAdmission`,
  `LibvirtLimits` and `LibvirtHardware` the admission bound, `LibvirtRegistry` what the calls do to the tables, `LibvirtMigration` the four-phase protocol across two hosts, `LibvirtStore` the calls themselves.
* **libvirt RPC wire format** (`libvirt-sim/internal/rpc`). `Xdr` and `XdrCodec` the codec, `Framing` the messages on a
  stream, `TypedParams` the parameter loops, `UuidText` UUIDs as text and bytes.

`Sums` (sums over finite maps) and `Basics` are shared. `dafny verify dfyconfig.toml` checks everything.

## How the model is set up

* State that the programs update in place is a class whose methods follow the calls; each method is proved to take
  exactly one step of a function on values, and the run theorems are about those steps. `Valid` (and `Agrees` for the
  monitor manager) is what the methods keep of them where it holds; the storage and libvirt calls do not need it to be
  called.
* Maps are visited in an arbitrary order (`var id :| id in todo`), so every result holds for every order. In a mutate
  that fails, which rows were changed by then depends on the order; atomicity does not.
* How a value prints is a parameter (`text`), and so is the supply of new ids (`newId`). Only `SetPortState` needs to
  know that strings print as themselves, and only well-formedness needs ids that are not blank.
* Ratios and column numbers are reals, and conversion to an integer truncates toward zero.

## Where the code does not do what one might expect

Each of these has a concrete input and the exact condition under which it does not happen.

* A `%=` mutation with a value such as 0.5 passes the test for zero and then divides by an integer zero, which brings the
  process down in the middle of a transaction (`HalfModulusCrashes`; `PanicIff`, `CrashOrders` and `CrashIff`).
* An update or mutate may overwrite `_uuid`, after which change logs name the wrong rows (`RenamedRowMisleads`;
  `UpdateFormedIff`, `MutateFormedIff` and `DifferenceIff`).
* A completing migration moves the size captured at its start: if the volume was extended, deleted and made again or
  migrated meanwhile, single backends go wrong while the global sums stay right (`ExtendInFlightDrifts`; `ExactRunIff`).
* Two migrations can pass the destination check before either moves its volume, and overfill the destination
  (`TwoMigrationsOverfill`; `MigrationBoundsIff`).
* Thick volumes can take allocation past the over-provisioned total (`SharedBackendExceedsLimit`; `TightLimitIff`).
* Deleting a clone leaves its id in `ChildClones`, so a snapshot can list clones that are gone; the links the other way
  never dangle (`DeletedCloneStaysListed`; `MirroredIff`). Snapshot and source volume can then never be deleted
  (`StuckForever`).
* `MigrateFinish` checks no resources, and neither does a change of the overcommit ratios (`StoppedPlaceholderOverruns`,
  `LoweredRatioOverruns`; `AdmissionIff`).

## Model

| member | source | states |
|---|---|---|
| `OvsdbMonitor.MonitorViews` | ovn-sim/internal/ovsdb/monitor.go:54-222 | over every run of registrations, cancellations, disconnects, commits and deliveries with one writer at a time, whenever nothing is pending a confirmed client holds the rows of every table it watches and of each row exactly the columns it asked for that the row has, and the uuid, with the values in the store; what it holds plus what is pending is that projection at every other moment, also for a client that registers between commit and the end of notification |
| `OvsdbMonitor.ClientSees` | ovn-sim/internal/ovsdb/monitor.go:54-120 | from registration on: a client that asks for tables that exist is registered for what it asked until it cancels, disconnects or registers again, and holds exactly that, place by place, whenever nothing is left to send |
| `OvsdbMonitor.RegisterConfirms` | ovn-sim/internal/ovsdb/monitor.go:54-92 | a registration is recorded in any case and confirmed if and only if every table asked for exists; no other client is affected |
| `OvsdbMonitor.OtherEvents` | ovn-sim/internal/ovsdb/monitor.go:95-120 | what a cancel, a disconnect, a commit and a delivery leave of registrations, tables and pending changes |
| `OvsdbServer.NoticeShows` | ovn-sim/internal/ovsdb/monitor.go:122-222 | a notice names the changed row and shows of its old and new version exactly the columns asked for that it has, and the uuid; an insert has no old row and a delete no new one |
| `OvsdbMonitor.SyncedStep` | ovn-sim/internal/ovsdb/monitor.go:54-120 | every single event keeps all confirmed clients in sync; a registration that fails stays behind but is not confirmed |
| `OvsdbMonitor.RegisterInSync` | ovn-sim/internal/ovsdb/monitor.go:72-91 | a dump taken while changes are still being sent out is in sync with them: receiving them again ends in the projection of the store |
| `OvsdbMonitor.ProjectReplay` | ovn-sim/internal/ovsdb/monitor.go:202-222 | projecting a replayed store equals sending the filtered changes, in order, to the projection of the old store |
| `OvsdbMonitor.OpeningIsProjection` | ovn-sim/internal/ovsdb/monitor.go:72-91 | the initial dump, which leaves out empty tables, determines the projection of all requested tables |
| `OvsdbOutcomes.Atomicity` | ovn-sim/internal/ovsdb/transact.go:11-99 | if an operation fails, at whatever index and after however many partial row changes, every table is as before the call, the change list is empty and the results have one slot per operation with the error at the first failing one, which is refused for the reason given there; short of a crash the transaction commits if and only if every operation goes through |
| `OvsdbOutcomes.LogIsDifference` | ovn-sim/internal/ovsdb/transact.go:101-245 | for a committed transaction on a well-formed store, replaying the change log on the old tables gives exactly the new tables, each change carries the row it replaces and replaying any suffix of the log on the new state changes nothing, even if the last operation writes uuids; if none does the new store is well-formed |
| `OvsdbOutcomes.DifferenceIff` | ovn-sim/internal/ovsdb/transact.go:101-245 | on any store the log is the difference after every operation of a committed transaction if and only if every operation pinpoints the rows it changes: the uuids carried by the selected rows name every row that changed and no row that is not there |
| `OvsdbOutcomes.LogReplaysIff` | ovn-sim/internal/ovsdb/transact.go:159-245 | the same for one operation, whatever order its log was written in |
| `OvsdbOutcomes.RenamedRowMisleads` | ovn-sim/internal/ovsdb/transact.go:171-185 | a transaction that gives a row another uuid and then writes to it commits with a log that is not the difference |
| `OvsdbOutcomes.CrashIff` | ovn-sim/internal/ovsdb/store.go:409-419 | a crash means that at the first failing operation some selected row panics; if one does and none is refused the transaction crashes, and if none does it fails with an error at that operation |
| `OvsdbStore.CrashOrders` | ovn-sim/internal/ovsdb/store.go:134-153 | mutating rows can bring the server down in some visiting order if and only if some row panics, and does so in every order if and only if moreover none is rejected |
| `OvsdbOutcomes.HalfModulusCrashes` | ovn-sim/internal/ovsdb/store.go:409-417 | a whole transaction, one mutate with the modulus 0.5 on one row, that always brings the server down |
| `OvsdbOutcomes.NoCrash` | ovn-sim/internal/ovsdb/store.go:409-419 | without a modulus that truncates to zero no transaction brings the server down, so it commits or fails |
| `OvsdbLog.LateReplay` | ovn-sim/internal/ovsdb/server.go:294-304 | replaying any suffix of a log on the state the whole log leads to changes nothing, so late subscribers converge |
| `OvsdbLog.ReplayCell` | ovn-sim/internal/ovsdb/transact.go:101-108 | after a replay every place holds what the log wrote there last, or what it held before |
| `OvsdbLog.ReplayConcat` | ovn-sim/internal/ovsdb/server.go:294-304 | a log can be cut anywhere: replay and truthfulness of the whole are those of the parts in sequence |
| `OvsdbTransact.ExecFormed` | ovn-sim/internal/ovsdb/transact.go:110-245 | an operation that does not write uuids keeps every row's uuid equal to its key |
| `OvsdbCells.GoesThroughIff` | ovn-sim/internal/ovsdb/transact.go:39-95 | an operation goes through if and only if it is an insert, select, update, delete or mutate, its table exists and, for a mutate, every selected row takes all mutations |
| `OvsdbCells.InsertCells` | ovn-sim/internal/ovsdb/transact.go:110-132 | an insert adds one row under the new id with the columns given, names filled in, and its uuid; no other row changes |
| `OvsdbCells.UpdateCells` | ovn-sim/internal/ovsdb/transact.go:159-188 | an update writes the columns given, names filled in, into the selected rows; every other column of every row is as before |
| `OvsdbCells.DeleteCells` | ovn-sim/internal/ovsdb/transact.go:190-214 | a delete removes exactly the selected rows, a select none, and the rest is as before |
| `OvsdbCells.MutateCells` | ovn-sim/internal/ovsdb/transact.go:216-245 | a mutate takes exactly the selected rows through all its mutations |
| `OvsdbCells.MutationsInOrder` | ovn-sim/internal/ovsdb/store.go:137-148 | each mutation takes what the one before it left, up to the first that does not go through |
| `OvsdbCells.OtherTables` | ovn-sim/internal/ovsdb/transact.go:110-245 | no operation touches another table, and none makes or drops one |
| `OvsdbCells.SelectAnswers` | ovn-sim/internal/ovsdb/transact.go:134-157 | a select answers every selected row once, each with exactly the columns asked for that it has, and its uuid |
| `OvsdbCells.OthersAnswer` | ovn-sim/internal/ovsdb/transact.go:110-245 | an insert answers the uuid of the new row, update, delete and mutate the number of selected rows |
| `OvsdbTransact.UpdateFormedIff` | ovn-sim/internal/ovsdb/store.go:82-102 | an update keeps a table well-formed if and only if it leaves the uuid column alone or writes into it what is there already |
| `OvsdbTransact.MutateFormedIff` | ovn-sim/internal/ovsdb/store.go:125-154 | a mutate that goes through keeps a table well-formed if and only if it selects nothing or adds nothing to the uuid column |
| `OvsdbTransact.NameMeans` | ovn-sim/internal/ovsdb/transact.go:30-55 | after the first operations a name stands for the uuid issued to the latest insert among them that gave it, which is determined by counting inserts, and for nothing if none did: references are backward only |
| `OvsdbOutcomes.ReferencesResolved` | ovn-sim/internal/ovsdb/transact.go:30-55 | over a whole transaction: what an insert or update writes into a column is stored, in every row it writes and at every path into nested sets, with each reference to a name given earlier turned into the uuid issued to the latest insert giving it, every other value that is not a set unchanged, and every set a set of as many |
| `OvsdbCells.ConditionsResolved` | ovn-sim/internal/ovsdb/transact.go:297-311 | the same for the conditions of an operation: exactly the names given by earlier inserts are resolved, at every path, and column and function stay |
| `OvsdbValues.ResolveAtPath` | ovn-sim/internal/ovsdb/transact.go:268-295 | at every path into nested sets: the shape is kept, a reference with a known name becomes that uuid, and any other value that is not a set is unchanged |
| `OvsdbValues.ResolveTwice` | ovn-sim/internal/ovsdb/transact.go:268-295 | resolving with one set of names and then another is resolving once with both, the earlier names taking precedence, so later names change nothing already resolved |
| `OvsdbValues.ResolveIdempotent` | ovn-sim/internal/ovsdb/transact.go:268-295 | resolution is idempotent |
| `OvsdbValues.PanicIff` | ovn-sim/internal/ovsdb/store.go:409-419 | the mutations of a row divide by zero if and only if one of them is a modulus that is not zero but truncates to zero, which the zero test does not catch, it is reached, and its column then holds a number |
| `OvsdbValues.SmallModulusPanics` | ovn-sim/internal/ovsdb/store.go:409-417 | a concrete row and mutation list for which that happens, with the earlier mutation already written into the row |
| `OvsdbValues.UuidKeptIff` | ovn-sim/internal/ovsdb/store.go:367-469 | mutations that go through leave the uuid of a row alone if and only if none of them adds to it; however far they get, nothing else can write it, and once a set it never becomes a reference again |
| `OvsdbLaws.ConditionsAgree` | ovn-sim/internal/ovsdb/store.go:266-328 | of less, equal and greater exactly one holds, the other comparison functions are their complements, order turns round with its arguments, and excludes is the complement of includes |
| `OvsdbLaws.NumbersCompare` | ovn-sim/internal/ovsdb/store.go:266-328 | on two numbers each of the six comparison functions is that of the numbers |
| `OvsdbLaws.TextsCompare` | ovn-sim/internal/ovsdb/store.go:266-328 | values that are not both numbers are compared as text by the first difference, position by position, references by the uuid they carry |
| `OvsdbLaws.IncludesMeans` | ovn-sim/internal/ovsdb/store.go:348-365 | a set includes a value if and only if some element prints like it, references by the uuid they carry |
| `OvsdbLaws.ValueIncludes` | ovn-sim/internal/ovsdb/store.go:348-365 | any other value includes what prints like it |
| `OvsdbLaws.MatchMeans` | ovn-sim/internal/ovsdb/store.go:234-264 | a row matches when it meets every condition; one on a missing column holds only as an inequality, and a malformed or unknown one never |
| `OvsdbCells.NumbersMatch` | ovn-sim/internal/ovsdb/store.go:234-328 | a row with numbers in the columns concerned meets a list of comparisons if and only if its numbers stand in all those relations |
| `OvsdbCells.DeleteByNumbers` | ovn-sim/internal/ovsdb/transact.go:190-214 | a delete with such conditions leaves exactly the rows whose numbers fail one of them, unchanged |
| `OvsdbLaws.NumericMutations` | ovn-sim/internal/ovsdb/store.go:370-419 | what adding, subtracting, multiplying and dividing leave in a numeric column, rounding apart, and that division and remainder by zero are rejected with the row untouched |
| `OvsdbLaws.NumericRemainder` | ovn-sim/internal/ovsdb/store.go:409-417 | the remainder is that of the two numbers cut to integers: smaller than the divisor, with the sign of the dividend |
| `OvsdbLaws.OtherMutations` | ovn-sim/internal/ovsdb/store.go:370-427 | on anything but numbers adding is a set insert, subtracting a set delete, and the other arithmetic is rejected with the row untouched |
| `OvsdbLaws.RefusedMutations` | ovn-sim/internal/ovsdb/store.go:424-426 | unknown mutators and malformed mutations are rejected with the row untouched |
| `OvsdbLaws.InsertLeaves` | ovn-sim/internal/ovsdb/store.go:429-447 | an insert appends to a set, makes a set of one where there was nothing and a set of two where there was a single value |
| `OvsdbLaws.DeleteLeaves` | ovn-sim/internal/ovsdb/store.go:449-469 | a delete keeps the other elements in their order, and leaves anything but a set alone |
| `OvsdbLaws.TagsMean` | ovn-sim/internal/ovsdb/transact.go:268-295 | how references and sets are written, and what a reference to a known name becomes |
| `OvsdbLaws.InsertIncludes` | ovn-sim/internal/ovsdb/store.go:429-447 | after a set insert the column is a set that includes the value, whatever it held before |
| `OvsdbLaws.DeleteExcludes` | ovn-sim/internal/ovsdb/store.go:449-469 | after a set delete the set excludes the value, keeps every other element, and no other column moves |
| `OvsdbLaws.InsertThenDelete` | ovn-sim/internal/ovsdb/store.go:429-469 | deleting what was just inserted restores a set that did not include it |
| `OvsdbTransact.Transact` | ovn-sim/internal/ovsdb/transact.go:11-99 | the loop over the operations with snapshot and rollback: commits with exactly the tables, results and logs the operations mean, or restores every table and reports why the first failing operation is refused, or crashes only where a row that operation selects makes a modulus truncate to zero |
| `OvsdbTransact.Advance` | ovn-sim/internal/ovsdb/transact.go:30-96 | one round of the loop: names filled in, executed, result, log and name recorded, or the reason of the refusal |
| `OvsdbTransact.ExecOne` | ovn-sim/internal/ovsdb/transact.go:39-95 | the switch over operation kinds: it goes through exactly when the operation means something on these tables, and then the new tables, the result and the log are those it means; a refusal is for the kind, then the table, then a selected row |
| `OvsdbTransact.ExecInsert` | ovn-sim/internal/ovsdb/transact.go:110-132 | insert: one new row under the issued id, logged as stored |
| `OvsdbTransact.ExecSelect` | ovn-sim/internal/ovsdb/transact.go:134-157 | select: the matching rows, each once, with the wanted columns |
| `OvsdbTransact.ExecUpdate` | ovn-sim/internal/ovsdb/transact.go:159-188 | update: matching rows overlaid, counted, and logged with old and new row |
| `OvsdbTransact.ExecDelete` | ovn-sim/internal/ovsdb/transact.go:190-214 | delete: matching rows removed, counted, and logged with the old row |
| `OvsdbTransact.ExecMutate` | ovn-sim/internal/ovsdb/transact.go:216-245 | mutate: matching rows mutated, counted and logged, or refused because of a row that is rejected, or crashed because of one that panics |
| `OvsdbChanges.UpdateChanges` | ovn-sim/internal/ovsdb/transact.go:171-185 | the loop that pairs old copies with current rows writes the log of an update or mutate |
| `OvsdbChanges.UpdateReplaysIff` | ovn-sim/internal/ovsdb/transact.go:171-185 | that log is the difference between two states of a table if and only if the copies name rows that are there and every row that changed is named |
| `OvsdbChanges.UpdateTruthful` | ovn-sim/internal/ovsdb/transact.go:171-185 | on a well-formed store it is the difference, and each entry carries the row it replaces |
| `OvsdbChanges.DeleteChanges` | ovn-sim/internal/ovsdb/transact.go:202-211 | the loop over removed rows writes the log of a delete |
| `OvsdbChanges.DeleteReplaysIff` | ovn-sim/internal/ovsdb/transact.go:202-211 | that log is the difference if and only if the copies name exactly the rows that went |
| `OvsdbChanges.LoggedUnder` | ovn-sim/internal/ovsdb/transact.go:247-258 | a row is logged under the string in second place of a pair in its uuid column, and under no uuid if it has no such pair |
| `OvsdbTransact.Snapshot` | ovn-sim/internal/ovsdb/transact.go:17-28 | a copy of every existing table that some operation names |
| `OvsdbTransact.Rollback` | ovn-sim/internal/ovsdb/transact.go:328-343 | snapshotted tables are restored and no other table is touched |
| `OvsdbStore.Store.Insert` | ovn-sim/internal/ovsdb/store.go:39-57 | a new row under a new id that it carries as its uuid, or an error for an unknown table |
| `OvsdbStore.Store.Select` | ovn-sim/internal/ovsdb/store.go:60-79 | the matching rows, each once, in some order |
| `OvsdbStore.Store.Update` | ovn-sim/internal/ovsdb/store.go:82-102 | exactly the matching rows are overlaid and counted |
| `OvsdbStore.Store.Delete` | ovn-sim/internal/ovsdb/store.go:105-122 | exactly the matching rows are removed and counted |
| `OvsdbStore.Store.Mutate` | ovn-sim/internal/ovsdb/store.go:125-154 | all matching rows are mutated and counted, or the first in some order that is rejected or panics decides, and only this table may have changed |
| `OvsdbStore.MutateIn` | ovn-sim/internal/ovsdb/store.go:134-153 | the row loop ends as visiting the matching rows in some order ends, with all of them mutated if it ends with a count |
| `OvsdbStore.MutateRow` | ovn-sim/internal/ovsdb/store.go:137-148 | the mutations of one row in order, up to the first that does not go through |
| `OvsdbStore.FilterRow` | ovn-sim/internal/ovsdb/monitor.go:202-222 | the loop over wanted columns keeps exactly those the row has, and its uuid |
| `OvsdbServer.HandleTransact` | ovn-sim/internal/ovsdb/server.go:270-310 | commit, then notify per change: a failed transaction leaves the world as it was; one that commits with a log that is the difference, as it is on a well-formed store, takes it through the commit of the log and one delivery per change, after which every confirmed client holds exactly the projection of the store if it was in sync before; a transaction that writes no uuids keeps the store well-formed |
| `OvsdbServer.SendAll` | ovn-sim/internal/ovsdb/server.go:294-304 | the notification loop delivers the log change by change |
| `OvsdbServer.SendingSynced` | ovn-sim/internal/ovsdb/server.go:294-304 | after a commit and any number of its deliveries every confirmed client is in sync and exactly the rest of the log is pending |
| `OvsdbServer.SetPortState` | ovn-sim/internal/state/cluster.go:109-134 | in every cluster, in any order: nothing happens where the port is not, and where it is the update is the commit and delivery of one change that sets only the up column of that port; clients in sync stay in sync, and the answer says whether any cluster has the port |
| `OvsdbServer.ByUuidMatches` | ovn-sim/internal/state/cluster.go:120-123 | the uuid condition selects exactly the row with that key |
| `OvsdbServer.MonitorManager.Register` | ovn-sim/internal/ovsdb/monitor.go:54-92 | adds the registration in every case; answers with the dump and confirms exactly when every requested table exists; keeps every confirmed client in sync |
| `OvsdbServer.MonitorManager.Cancel` | ovn-sim/internal/ovsdb/monitor.go:95-113 | removes the registration, and the client with its last one; fails exactly when there is no such registration; keeps every other client in sync |
| `OvsdbServer.MonitorManager.RemoveClient` | ovn-sim/internal/ovsdb/monitor.go:116-120 | removes every registration of the client and no other; keeps the others in sync |
| `OvsdbServer.MonitorManager.Notify` | ovn-sim/internal/ovsdb/monitor.go:122-200 | every registration that watches the table is sent exactly one notification and no other is sent any, in any visiting order |
| `StorageAccounting.GlobalConservation` | storage-sim/internal/state/store.go:221-364 | in every interleaving of API calls and worker steps, including extending, deleting or migrating again a volume in flight, allocated space over all backends equals the sizes of all volumes and used space those of the thick ones |
| `StorageAccounting.ConservationPost` | storage-sim/internal/state/store.go:907-937 | no booking creates or loses space; only a newly registered backend brings some in |
| `StorageAccounting.PerBackendExactness` | storage-sim/internal/state/store.go:751-821 | in every run that does not extend, delete or migrate again a volume in flight, each backend's counters equal the sums over the volumes on it |
| `StorageAccounting.MoveExactIff` | storage-sim/internal/state/store.go:915-937 | the completion step keeps the counters exact if and only if what it captured at the start balances against the volume as it is now |
| `StorageAccounting.ExactRunIff` | storage-sim/internal/state/store.go:221-945 | over every run, whatever is done to volumes in flight: each backend's counters are exact at every point if and only if no migration completes out of balance |
| `StorageRuns.ExtendInFlightDrifts` | storage-sim/internal/state/store.go:915-937 | a run in which a volume is extended in flight: 5 GB stay booked on a backend with no volume left, and the other is 5 GB short |
| `StorageRuns.Completes` | storage-sim/internal/state/store.go:854-945 | a migration that nobody touches completes with its thirteenth locked region, with the captured capacity and the volume on the destination and nothing else moved |
| `StorageRuns.MigrationEndToEnd` | storage-sim/internal/state/store.go:751-945 | a migration that is accepted and left alone ends with the volume on the destination, its size given back at the source and booked at the destination, and the record completed |
| `StorageRuns.ReportsProgress` | storage-sim/internal/state/store.go:881-884 | after each of the ten transfer regions the record shows 9, 18, 27, 36, 45, 54, 62, 72, 81 and 90 per cent and that many tenths of the bytes, rounded down |
| `StorageRuns.FlattenEndToEnd` | storage-sim/internal/state/store.go:609-720 | a flatten that is accepted and left alone ends with the volume without a parent and its size consumed, one entry for it gone from the parent's list, and the operation completed |
| `StorageRuns.FailsWithoutVolume` | storage-sim/internal/state/store.go:676-920 | a worker that finds its volume gone in its last region fails its record and moves nothing |
| `StorageAccounting.CapturedStep` | storage-sim/internal/state/store.go:854-945 | while undisturbed, every migration in flight still has its volume's size, thin flag and backend right, and no volume is in flight twice |
| `StorageLedger.StepPosts` | storage-sim/internal/state/store.go:159-945 | every step of the store is one booking on the capacity ledger, which forgets everything but counters and placements |
| `StorageBounds.CapacityBounds` | storage-sim/internal/state/store.go:241-254 | without migrations and with sizes that are not negative: 0 <= used <= total, thin allocation within the over-provisioned total, both together within the sum, and allocation within the over-provisioned total where only thin volumes are placed |
| `StorageBounds.TightLimitIff` | storage-sim/internal/state/store.go:241-254 | a run without migrations keeps allocation within the over-provisioned total at every point if and only if no create or extend of a thick volume is let through where the test for thin ones would have refused it |
| `StorageBounds.SharedBackendExceedsLimit` | storage-sim/internal/state/store.go:248-254 | a concrete run in which a thick volume takes allocation past the over-provisioned total, because the thick branch does not look at it |
| `StorageMoves.BoundsRunIff` | storage-sim/internal/state/store.go:221-945 | over every run with migrations: thick space is within the total and thin space within the over-provisioned total on every backend at every point if and only if no deletion takes off more than is there and no completing migration takes off more than is there or moves on more than there is room for |
| `StorageMoves.MigrationBoundsIff` | storage-sim/internal/state/store.go:751-945 | with volumes in flight left alone, the bounds hold at every point if and only if every migration that completes still finds room on its destination |
| `StorageRuns.TwoMigrationsOverfill` | storage-sim/internal/state/store.go:771-783 | a run in which two migrations pass the destination check one after the other and leave twice the capacity in use |
| `StorageLineage.NothingDangles` | storage-sim/internal/state/store.go:298-324 | in every interleaving each live clone's parent snapshot exists and lists it, each snapshot's source volume exists and lists it, and each volume lists live snapshots of its own, each once |
| `StorageMirror.MirroredIff` | storage-sim/internal/state/store.go:298-324 | over every run: each snapshot lists nothing but its own live clones, each once, at every point if and only if no volume is deleted while it is a clone |
| `StorageRuns.DeletedCloneStaysListed` | storage-sim/internal/state/store.go:298-324 | a run after which a snapshot lists a clone that is gone |
| `StorageStuck.StuckForever` | storage-sim/internal/state/store.go:298-324 | once a clone has been deleted, its parent snapshot and that snapshot's source volume refuse to be deleted at every point of every later run, even when ids are used again |
| `StorageStuck.RefusedWithClonesIff` | storage-sim/internal/state/store.go:523-548 | where no stale clone is listed a snapshot refuses to be deleted if and only if it has a live clone |
| `StorageLineage.AncestryEnds` | storage-sim/internal/state/store.go:551-606 | in every run, even when ids are deleted and used again, the walk from any volume through parent snapshot and source volume reaches one without a parent, and no walk returns to its start |
| `StorageLineage.SourceStep` | storage-sim/internal/state/store.go:523-548 | a clone keeps its source through every step for as long as it is a clone |
| `StorageLineage.LinkedStep` | storage-sim/internal/state/store.go:456-606 | every step keeps the snapshot and clone graph free of dangling links |
| `StorageMigrations.MigrationLife` | storage-sim/internal/state/store.go:837-945 | at any later point of a run a migration's state is reachable from its earlier one, its progress and bytes are no less, and a completed or failed record is unchanged |
| `StorageMigrations.MigrationEdge` | storage-sim/internal/state/store.go:837-945 | one step takes a migration along preparing, transferring, finishing, completed, or to failed from any of the first three |
| `StorageMigrations.CapacityMovesOnce` | storage-sim/internal/state/store.go:906-945 | in any run at most one region of a migration changes a counter or a volume, and none does for one that does not end completed |
| `StorageMigrations.TerminalShiftsNothing` | storage-sim/internal/state/store.go:910-913 | a completed, failed or cancelled migration's record stays and its worker changes no counter and no volume any more |
| `StorageMigrations.CancelIff` | storage-sim/internal/state/store.go:837-852 | a cancel is accepted if and only if the migration is preparing or transferring, and otherwise changes nothing; accepted, it fails the record and touches nothing else |
| `StorageMigrations.CancelledForever` | storage-sim/internal/state/store.go:849-913 | once a cancel was accepted, at every later point of every run the record is failed and cancelled, and no region of the migration changes a counter or a volume |
| `StorageMigrations.FirstReportForwardIff` | storage-sim/internal/state/store.go:881-884 | the first progress report keeps bytes from going back if and only if the volume was not of negative size at the start |
| `StorageStore.Store.AddBackend` | storage-sim/internal/state/store.go:159-179 | one step of the model: checks in order, defaults for blank state and zero ratio |
| `StorageStore.Store.SetBackendState` | storage-sim/internal/state/store.go:207-218 | one step of the model: only the state of that backend |
| `StorageStore.Store.CreateVolume` | storage-sim/internal/state/store.go:221-264 | one step of the model: checks in order, thin or thick admission, both counters and the new volume |
| `StorageStore.Store.DeleteVolume` | storage-sim/internal/state/store.go:298-324 | one step of the model: refused while in use or with snapshots, capacity given back |
| `StorageStore.Store.ExtendVolume` | storage-sim/internal/state/store.go:327-364 | one step of the model: refused when not larger or not fitting, the difference charged |
| `StorageStore.Store.ExportVolume` | storage-sim/internal/state/store.go:367-387 | one step of the model: in use with its export recorded |
| `StorageStore.Store.UnexportVolume` | storage-sim/internal/state/store.go:390-407 | one step of the model: available again with no export |
| `StorageStore.Store.CreateSnapshot` | storage-sim/internal/state/store.go:456-488 | one step of the model: new snapshot of the current size, listed last on its volume |
| `StorageStore.Store.DeleteSnapshot` | storage-sim/internal/state/store.go:523-548 | one step of the model: refused with listed clones, taken off its volume's list |
| `StorageStore.Store.CloneFromSnapshot` | storage-sim/internal/state/store.go:551-606 | one step of the model: a thin clone on the source's backend, charged and listed on the snapshot |
| `StorageStore.Store.StartFlatten` | storage-sim/internal/state/store.go:609-652 | one step of the model: refused without a parent, otherwise an operation and its worker |
| `StorageStore.Store.RunFlatten` | storage-sim/internal/state/store.go:655-720 | one locked region of the flatten worker |
| `StorageStore.Store.StartMigration` | storage-sim/internal/state/store.go:751-821 | one step of the model: destination admission, then a migration whose worker captures size, thin flag and source |
| `StorageStore.Store.CancelMigration` | storage-sim/internal/state/store.go:837-852 | one step of the model: only while preparing or transferring |
| `StorageStore.Store.RunMigration` | storage-sim/internal/state/store.go:854-945 | one locked region of the migration worker |
| `StorageStore.Store.MoveCapacity` | storage-sim/internal/state/store.go:921-935 | the captured capacity leaves the captured source and arrives at the destination, also when they are the same |
| `StorageStore.Unlist` | storage-sim/internal/state/store.go:535-543 | the scan that takes one id off a list removes exactly its first occurrence |
| `StorageStore.SustainedStep` | storage-sim/internal/state/store.go:159-945 | what the class keeps between calls: registered backends only, no dangling links, records in step with their workers, capacity conserved |
| `StorageCalls.RefusedChangesNothing` | storage-sim/internal/state/store.go:159-852 | a refused call changes nothing |
| `StorageCalls.CreateIff` | storage-sim/internal/state/store.go:221-264 | a volume is created if and only if its id is not blank and free, its backend registered and active, and it fits: thin space within the capacity times the ratio, thick space within the capacity; and which error it is otherwise |
| `StorageCalls.ExtendIff` | storage-sim/internal/state/store.go:327-364 | a volume is extended if and only if it exists, grows and the difference fits |
| `StorageCalls.CloneIff` | storage-sim/internal/state/store.go:551-606 | a clone is made if and only if its id is free, its snapshot, source volume and backend are there and active, and the snapshot's size fits as thin space |
| `StorageCalls.MigrateIff` | storage-sim/internal/state/store.go:751-783 | a migration is started if and only if the volume exists without snapshots and would fit on a registered destination |
| `StorageCalls.OthersIff` | storage-sim/internal/state/store.go:159-652 | when the remaining calls are accepted |
| `StorageCalls.ErrorsOfVolumes` | storage-sim/internal/state/store.go:298-652 | which error a refused call about a volume answers: the first reason in the order in which the store looks |
| `StorageCalls.ErrorsOfOthers` | storage-sim/internal/state/store.go:159-783 | the same for calls about backends, snapshots and migrations |
| `StorageCalls.ErrorsOfClones` | storage-sim/internal/state/store.go:551-606 | the same for clones |
| `StorageCalls.DeleteUndoesCreate` | storage-sim/internal/state/store.go:221-324 | deleting a new volume restores the store to what it was before, counters included |
| `StorageCalls.ExtendTwice` | storage-sim/internal/state/store.go:327-364 | extending twice is extending once to the last size |
| `StorageCalls.UnexportUndoesExport` | storage-sim/internal/state/store.go:367-407 | exporting records the export and marks the volume in use; unexporting takes both back |
| `StorageCalls.ExportedStays` | storage-sim/internal/state/store.go:298-407 | an exported volume stays exported to the same host and can be neither deleted nor exported again at any point of any run until it is unexported |
| `StorageCalls.DeleteUndoesSnapshot` | storage-sim/internal/state/store.go:456-548 | a snapshot has the size of its volume then and stands last on its list; deleting it restores the store |
| `StorageCalls.DeleteHalfUndoesClone` | storage-sim/internal/state/store.go:298-606 | deleting a clone undoes making it but for the entry on the snapshot's list |
| `StorageCalls.BackendStays` | storage-sim/internal/state/store.go:207-264 | a backend keeps capacity, ratio and the state it was set to until it is set again, and while that is not active nothing is created or cloned onto it |
| `LibvirtMigration.FourPhaseMigration` | libvirt-sim/internal/state/store.go:411-543 | if Prepare, Perform, Finish and Confirm succeed in that order for a domain, with any calls about other domains in between, some host has it running at every point, its reservation is on the source, then on both hosts, then on the destination, and it ends on the destination only as the same machine |
| `LibvirtMigration.MigrationSucceedsIff` | libvirt-sim/internal/state/store.go:411-543 | once Prepare has succeeded, Perform, Finish and Confirm succeed if and only if the domain is running and not migrating when the migration starts, whatever calls about other domains lie in between |
| `LibvirtMigration.AtNext` | libvirt-sim/internal/state/store.go:449-541 | each of the four calls, when it succeeds, takes the domain from one phase exactly to the next |
| `LibvirtMigration.AtElsewhere` | libvirt-sim/internal/state/store.go:103-407 | a call about another domain leaves the phase alone |
| `LibvirtMigration.PerformNeedsRunning` | libvirt-sim/internal/state/store.go:482-488 | Perform succeeds only for a running domain that is not migrating |
| `LibvirtAdmission.AdmissionBound` | libvirt-sim/internal/state/store.go:271-312 | in every careful run active vCPUs and megabytes of each host are within the available amounts, hence active KiB within 1024 times that plus 1023 per active domain |
| `LibvirtHardware.HardwareBound` | libvirt-sim/internal/state/host.go:58-95 | in every careful run the vCPUs of a host's running and paused domains are within sockets times cores times threads times the vCPU ratio, and their whole megabytes within its memory times the memory ratio |
| `LibvirtHardware.StartIff` | libvirt-sim/internal/state/store.go:271-312 | a start succeeds if and only if the domain is shut off and its vCPUs and megabytes fit beside those in use within these two products; it is denied exactly for want of room |
| `LibvirtHardware.PrepareIff` | libvirt-sim/internal/state/store.go:411-447 | a reservation succeeds if and only if the host is online, does not have the domain and has room for it in the same sense |
| `LibvirtHardware.TwoGigabytesDenied` | libvirt-sim/internal/state/host.go:66-70 | a host with 1024 megabytes and memory ratio 1.5 denies a domain of 2048, whatever its vCPU ratio |
| `LibvirtLimits.AdmissionIff` | libvirt-sim/internal/state/store.go:271-520 | over every run, changed ratios and stopped placeholders included: every host is within what it offers at every point if and only if no stopped placeholder is finished where it no longer fits and no ratio is lowered below what is in use |
| `LibvirtLimits.StoppedPlaceholderOverruns` | libvirt-sim/internal/state/store.go:496-520 | a run in which a stopped placeholder is finished after its room was given away: two vCPUs in use on a host with one |
| `LibvirtLimits.LoweredRatioOverruns` | libvirt-sim/internal/handler/management.go:168-187 | a run in which a lowered ratio leaves a host with less than is in use |
| `LibvirtAdmission.FinishWithinIff` | libvirt-sim/internal/state/store.go:496-520 | Finish, which checks no resources, keeps a host within bounds if and only if the placeholder still held its reservation or would fit if started now |
| `LibvirtAdmission.AdmittedStep` | libvirt-sim/internal/state/store.go:411-465 | every careful call keeps every host within its bounds and every placeholder holding its reservation |
| `LibvirtAdmission.KiBOfMB` | libvirt-sim/internal/state/host.go:85-96 | counting whole megabytes hides at most 1023 KiB per active domain |
| `LibvirtRegistry.LifecycleIff` | libvirt-sim/internal/state/domain.go:87-123 | which lifecycle calls a domain takes, by its state |
| `LibvirtRegistry.PhasesIff` | libvirt-sim/internal/state/store.go:468-541 | which calls of a migration a domain takes, by its state and migration |
| `LibvirtRegistry.LifecycleErrors` | libvirt-sim/internal/state/store.go:271-541 | the errors of a call about a domain: host before domain before state; only a start is denied for want of room, and only Perform finds a migration in progress |
| `LibvirtRegistry.HostErrors` | libvirt-sim/internal/state/store.go:103-447 | the errors of calls about hosts and of a reservation |
| `LibvirtRegistry.LifecycleLeaves` | libvirt-sim/internal/state/domain.go:76-123 | the state, id and migration each call leaves; everything else about the domain stays |
| `LibvirtRegistry.TouchesOne` | libvirt-sim/internal/state/store.go:202-541 | a call touches one domain of one host and, if it starts one, the next id |
| `LibvirtRegistry.BroughtIn` | libvirt-sim/internal/state/store.go:202-465 | a definition is stored shut off and a reservation paused and prepared, under the uuid and without an id |
| `LibvirtRegistry.ResumeUndoesSuspend` | libvirt-sim/internal/state/domain.go:107-123 | resuming undoes suspending |
| `LibvirtRegistry.PortsAgree` | libvirt-sim/internal/state/store.go:103-181 | in every run the port table lists exactly the ports of the hosts there are, so a host is added if and only if its id and its port are free, with blank state and zero ratios filled in |
| `LibvirtRegistry.HostCalls` | libvirt-sim/internal/state/store.go:169-181 | removing a host removes it and its port and nothing else; settings change only what they name |
| `LibvirtRegistry.IdsUnique` | libvirt-sim/internal/state/store.go:202-520 | in every run domains are stored under their uuids and no two domains on any hosts have the same id |
| `LibvirtRegistry.RefusedChangesNothing` | libvirt-sim/internal/state/store.go:103-541 | a refused call changes nothing |
| `LibvirtStore.Usage` | libvirt-sim/internal/state/host.go:72-95 | the accumulation loop, in any order, is the sum over running and paused domains |
| `LibvirtStore.CanAllocate` | libvirt-sim/internal/state/host.go:99-124 | true exactly when both vCPUs and megabytes of one more domain fit |
| `LibvirtStore.Store.AddHost` | libvirt-sim/internal/state/store.go:103-130 | one step of the model: id and port free, blank fields defaulted, both maps extended |
| `LibvirtStore.Store.RemoveHost` | libvirt-sim/internal/state/store.go:169-181 | one step of the model: host and port gone |
| `LibvirtStore.Store.DefineDomain` | libvirt-sim/internal/state/store.go:202-216 | one step of the model: stored shut off, replacing any domain with the same UUID |
| `LibvirtStore.Store.StartDomain` | libvirt-sim/internal/state/store.go:271-312 | one step of the model: only from shut off and only if it fits, with a new id |
| `LibvirtStore.Store.DestroyDomain` | libvirt-sim/internal/state/store.go:315-330 | one step of the model: from running or paused to shut off |
| `LibvirtStore.Store.ShutdownDomain` | libvirt-sim/internal/state/store.go:333-348 | one step of the model: from running to shut off |
| `LibvirtStore.Store.SuspendDomain` | libvirt-sim/internal/state/store.go:351-366 | one step of the model: from running to paused |
| `LibvirtStore.Store.ResumeDomain` | libvirt-sim/internal/state/store.go:369-384 | one step of the model: from paused to running |
| `LibvirtStore.Store.UndefineDomain` | libvirt-sim/internal/state/store.go:387-407 | one step of the model: only when shut off |
| `LibvirtStore.Store.MigratePrepare` | libvirt-sim/internal/state/store.go:411-465 | one step of the model: host online, domain absent, room for it; then a paused placeholder |
| `LibvirtStore.Store.MigratePerform` | libvirt-sim/internal/state/store.go:468-493 | one step of the model: running and not migrating becomes performing |
| `LibvirtStore.Store.MigrateFinish` | libvirt-sim/internal/state/store.go:496-520 | one step of the model: a prepared domain becomes running with a new id and no migration |
| `LibvirtStore.Store.MigrateConfirm` | libvirt-sim/internal/state/store.go:523-543 | one step of the model: a performing domain is removed |
| `Xdr.CodecRoundTrip` | libvirt-sim/internal/rpc/xdr.go:25-222 | decoding an encoded list of typed fields returns the fields and consumes every byte, and the buffer is a multiple of four bytes (sections 4.1, 4.2, 4.5, 4.9, 4.11 and 4.19 of RFC 4506) |
| `Xdr.FieldRoundTrip` | libvirt-sim/internal/rpc/xdr.go:126-222 | wherever an encoded field stands in a buffer, reading it returns it and leaves the decoder just behind it |
| `Xdr.StringRoundTripIff` | libvirt-sim/internal/rpc/xdr.go:54-62 | a string is read back if and only if its length fits the 32-bit prefix |
| `Xdr.Get32Put32` | libvirt-sim/internal/rpc/xdr.go:26-37 | writing and reading four big-endian bytes is the value modulo 2^32 |
| `Xdr.Get64Put64` | libvirt-sim/internal/rpc/xdr.go:40-51 | writing and reading eight big-endian bytes is the value modulo 2^64 |
| `Xdr.WordBytes` | libvirt-sim/internal/rpc/xdr.go:26-37 | a word is written most significant byte first, a negative number as its two's complement |
| `Xdr.LongBytes` | libvirt-sim/internal/rpc/xdr.go:40-51 | a long word is its high half before its low half |
| `Xdr.StringLayout` | libvirt-sim/internal/rpc/xdr.go:54-72 | a string is its length, its bytes and zeros to a multiple of four; an optional one is preceded by the word one, and is the word zero if absent |
| `Xdr.OpaqueLayout` | libvirt-sim/internal/rpc/xdr.go:75-108 | opaque data is cut or zero-filled to its size and padded with zeros; a UUID is its bytes |
| `Xdr.ReadField` | libvirt-sim/internal/rpc/xdr.go:127-222 | a read never moves back and never leaves the position more than three bytes past the end |
| `XdrCodec.Encoder.WriteString` | libvirt-sim/internal/rpc/xdr.go:54-62 | length, bytes and the padding loop append the encoding of the string |
| `XdrCodec.Encoder.WriteOptional` | libvirt-sim/internal/rpc/xdr.go:65-72 | discriminant and string append the encoding of the optional string |
| `XdrCodec.Encoder.WriteFixed` | libvirt-sim/internal/rpc/xdr.go:75-84 | data cut or zero-filled to size, then padding |
| `XdrCodec.Encoder.WriteAll` | libvirt-sim/internal/rpc/xdr.go:25-108 | a list of writes appends the encoding of the list |
| `XdrCodec.Decoder.ReadUint32` | libvirt-sim/internal/rpc/xdr.go:137-144 | four bytes at the position, or failure with the position unmoved |
| `XdrCodec.Decoder.ReadInt32` | libvirt-sim/internal/rpc/xdr.go:127-134 | the same four bytes taken as signed |
| `XdrCodec.Decoder.ReadUint64` | libvirt-sim/internal/rpc/xdr.go:157-164 | eight bytes at the position, or failure with the position unmoved |
| `XdrCodec.Decoder.ReadStr` | libvirt-sim/internal/rpc/xdr.go:167-181 | length, data and padding skipped; a failure after the length leaves the position behind it |
| `XdrCodec.Decoder.ReadOpt` | libvirt-sim/internal/rpc/xdr.go:184-197 | absent, or present and a string |
| `XdrCodec.Decoder.ReadOpaque` | libvirt-sim/internal/rpc/xdr.go:200-222 | fixed-size data and padding skipped |
| `Framing.FramingIff` | libvirt-sim/internal/rpc/protocol.go:103-153 | a stream parses into a list of messages if and only if it is the concatenation of their frames and every body is at most 4 MiB less 28 bytes |
| `Framing.FrameRoundTripIff` | libvirt-sim/internal/rpc/protocol.go:111-120 | a message is read back, with the stream left just behind it, if and only if its body is at most 4 MiB less 28 bytes |
| `Framing.FrameLayout` | libvirt-sim/internal/rpc/protocol.go:68-77 | the length of the whole, then program, version, procedure, type, serial and status, then the body |
| `Framing.FailuresMean` | libvirt-sim/internal/rpc/protocol.go:104-125 | a read fails for fewer than four bytes, a length below 28 or above 4 MiB, or a stream that ends first, and says which |
| `Framing.HeaderRoundTrip` | libvirt-sim/internal/rpc/protocol.go:68-101 | decoding an encoded header returns it |
| `Framing.MarshalHeader` | libvirt-sim/internal/rpc/protocol.go:68-77 | six writes on an encoder give the 24 header bytes |
| `Framing.UnmarshalHeader` | libvirt-sim/internal/rpc/protocol.go:80-101 | six reads on a decoder give the header, or failure for fewer than 24 bytes |
| `Framing.ReadMessage` | libvirt-sim/internal/rpc/protocol.go:104-135 | takes exactly the next frame off the connection, or reports that the stream ended, or that the length is too short or too large, with what is left on the connection in each case |
| `Framing.WriteMessage` | libvirt-sim/internal/rpc/protocol.go:138-153 | appends exactly the frame of the message to the connection |
| `TypedParams.ParseBounded` | libvirt-sim/internal/rpc/handlers_migration.go:16-52 | on arbitrary bytes the position never exceeds length plus three, at most one parameter per twelve bytes is read whatever the count claims, and a parse completes only with as many parameters as claimed |
| `TypedParams.LastWins` | libvirt-sim/internal/rpc/handlers_migration.go:38-45 | the last string parameter with a name wins, whatever came before it |
| `TypedParams.NoneGiven` | libvirt-sim/internal/rpc/handlers_migration.go:127-151 | a name that is never given as a string comes out empty |
| `TypedParams.ParseUuid` | libvirt-sim/internal/rpc/handlers_migration.go:122-151 | the loop of Perform, repeated word for word at 210-239 and 277-306 for Finish and Confirm: the last domain_uuid, or failure exactly when the body is cut short |
| `TypedParams.ParsePrepare` | libvirt-sim/internal/rpc/handlers_migration.go:16-52 | the loop of Prepare fails on exactly the same bodies and extracts the same UUID, beside name and destination |
| `TypedParams.RequestUnderstood` | libvirt-sim/internal/rpc/handlers_migration.go:16-52 | for every list of parameters a client writes, strings as type 7 and others with eight bytes, what the loops extract is the value of the last string parameter named domain_uuid, domain_name and dest_uri, or empty |
| `TypedParams.BodyReadBack` | libvirt-sim/internal/rpc/handlers_migration.go:122-151 | the loops read such a body back parameter by parameter to the last byte |
| `UuidText.UuidRoundTrip` | libvirt-sim/internal/state/domain.go:64-73 | parsing the text of any sixteen bytes gives those bytes back |
| `UuidText.UuidStringInjective` | libvirt-sim/internal/state/domain.go:64-73 | two UUIDs have the same text if and only if they are the same bytes |
| `UuidText.FoundByReference` | libvirt-sim/internal/rpc/handlers.go:585-611 | a domain stored under the UUID of its XML, in any spelling, is found by exactly the references carrying the same sixteen bytes, and every other reference finds what it found before |
| `UuidText.HexOfWord` | libvirt-sim/internal/state/domain.go:66-72 | formatting the word made of some bytes at two digits a byte writes out the bytes |
| `UuidText.UuidDigits` | libvirt-sim/internal/xml/domain.go:136-148 | without its dashes the text is the thirty-two digits of the bytes |
| `UuidText.TextLayout` | libvirt-sim/internal/state/domain.go:64-73 | thirty-six characters, dashes at four places, and at every other place the lower-case digit of one half-byte, in order |
| `UuidText.ParseIff` | libvirt-sim/internal/xml/domain.go:136-148 | what parses, and to what: without dashes thirty-two hexadecimal digits in either case that spell the bytes |
| `UuidText.DashesDropped` | libvirt-sim/internal/xml/domain.go:138-138 | dashes are dropped wherever they stand and nothing else is |

## Left out

- OvsdbOutcomes.LogIsDifference: assumes that operations before the last do not write the uuid column of existing rows, which the code does not check; DifferenceIff is the exact condition without that assumption.
- OvsdbMonitor.MonitorViews: one writer at a time, and registration as one step; the interleaving of two transactions, which take the store lock once per table access, and a dump that reads its tables on both sides of a commit are not modelled.
- OvsdbMonitor.MonitorViews: inserts made by CreateICCluster bypass notifications and are not steps of the run; notifications that cannot be sent are not modelled.
- OvsdbStore.Store.Mutate: column arithmetic is on reals, so rounding is not modelled, and no result depends on it; set slices are values, so the sharing of backing arrays by append is not modelled; the conversion to 64-bit integers in `%=` is taken without its range limit.
- StorageMigrations.MigrationLife: elapsed and remaining times are not modelled.
- LibvirtMigration.FourPhaseMigration: the handler's search for the source domain by UUID or name over all hosts is not modelled; Prepare is given the domain.
- Integer overflow: capacities, counters, memory and domain ids are unbounded integers, except in the wire format, where widths are modelled.
- Referential integrity, which `docs/spec/04-ovn-sim.md` describes: the store does not look at its schema beyond table names, so there is no check to model.
- Reset of any simulator while workers or clients are alive.
- Fields no result depends on: timestamps, metadata, QoS, IOPS, NUMA, GPUs, error texts.
- Calls that only list or report (ListVolumes, ListSnapshots, GetStats, Info): easy members over the same state.
- Data races below lock granularity, such as host fields written by the management handler without the host lock.
- HTTP, TCP, JSON-RPC, JSON, XML and YAML handling, sleeping, logging and event callbacks.
- awx-sim, netbox-sim, common, load-gen, webui, postgres and the command-line programs.
