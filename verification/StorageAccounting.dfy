/** Capacity accounting over whole runs: the counters on the backends against the volumes placed on them. */
module StorageAccounting {
  import opened Sums
  import opened StorageModel
  import opened StorageLedger

  function AllocOf(a: Account): int { a.alloc }

  function UsedOf(a: Account): int { a.used }

  function SizeOf(e: Entry): int { e.size }

  function ThickOf(e: Entry): int { if e.thin then 0 else e.size }

  function SizeOn(backend: string): Entry -> int
  {
    (e: Entry) => if e.backend == backend then e.size else 0
  }

  function ThickOn(backend: string): Entry -> int
  {
    (e: Entry) => if e.backend == backend && !e.thin then e.size else 0
  }

  // ---- Bookings a store can post ---------------------------------------------------------------

  /** Every volume is on a registered backend. */
  predicate Placed(l: Ledger)
  {
    forall id :: id in l.entries ==> l.entries[id].backend in l.accounts
  }

  /** Volumes and migration workers name registered backends only (backends are never removed). */
  predicate Grounded(s: State)
  {
    && (forall id :: id in s.volumes ==> s.volumes[id].backend in s.backends)
    && (forall m :: m in s.migrationWorkers ==>
          s.migrationWorkers[m].source in s.backends && s.migrationWorkers[m].dest in s.backends)
  }

  predicate Sound(l: Ledger, k: Booking)
  {
    match k
    case Nothing => true
    case Register(id, _) => id !in l.accounts
    case Place(id, e) => id !in l.entries && e.backend in l.accounts
    case Remove(id) => id in l.entries
    case Grow(id, _) => id in l.entries
    case Move(id, source, dest, _, _) => id in l.entries && source in l.accounts && dest in l.accounts
  }

  lemma {:induction false} StepSound(s: State, c: Command)
    requires Grounded(s)
    ensures Placed(LedgerOf(s)) && Sound(LedgerOf(s), BookingOf(s, c))
  {
  }

  lemma {:induction false} PlacedPost(l: Ledger, k: Booking)
    requires Placed(l) && Sound(l, k)
    ensures Placed(Post(l, k))
    ensures l.accounts.Keys <= Post(l, k).accounts.Keys
  {
    match k
    case Nothing =>
    case Register(_, _) =>
    case Place(_, _) =>
    case Remove(_) =>
    case Grow(_, _) =>
    case Move(_, _, _, _, _) =>
  }

  /** A worker's facts, without its position. */
  function Facts(w: MigrationWorker): MigrationWorker
  {
    w.(pc := 0)
  }

  /** Whatever a step does to the workers, a worker it leaves behind has the facts it had before, unless
      the step started it; and a worker in flight afterwards was in flight before and did not just move
      its volume. */
  lemma {:induction false} WorkerStep(s: State, c: Command, m: nat)
    requires m in Step(s, c).next.migrationWorkers
    requires !(c.StartMigration? && m == s.opCounter + 1)
    ensures m in s.migrationWorkers
    ensures Facts(Step(s, c).next.migrationWorkers[m]) == Facts(s.migrationWorkers[m])
    ensures Live(Step(s, c).next, m) ==> Live(s, m) && !(c == MigrationStep(m) && Moves(s, m))
  {
    if c.StartMigration? {
      if Check(s, c).None? {
      }
    } else if c.CancelMigration? {
      if Check(s, c).None? {
      }
    } else if c.MigrationStep? {
      RegionStep(s, c.worker, m);
    } else {
      MigrationsUntouched(s, c);
    }
  }

  lemma {:induction false} RegionStep(s: State, mig: nat, m: nat)
    requires m in MigrationRegion(s, mig).migrationWorkers
    ensures m in s.migrationWorkers
    ensures Facts(MigrationRegion(s, mig).migrationWorkers[m]) == Facts(s.migrationWorkers[m])
    ensures Live(MigrationRegion(s, mig), m) ==> Live(s, m) && !(m == mig && Moves(s, mig))
  {
  }

  lemma {:induction false} VolumesGrounded(s: State, c: Command)
    requires Grounded(s)
    ensures s.backends.Keys <= Step(s, c).next.backends.Keys
    ensures forall id :: id in Step(s, c).next.volumes ==> Step(s, c).next.volumes[id].backend in Step(s, c).next.backends
  {
    hide Step, Post, BookingOf, Grounded;
    var s' := Step(s, c).next;
    StepPosts(s, c);
    StepSound(s, c);
    PlacedPost(LedgerOf(s), BookingOf(s, c));
    assert LedgerOf(s').accounts.Keys == s'.backends.Keys && LedgerOf(s).accounts.Keys == s.backends.Keys;
    forall id | id in s'.volumes
      ensures s'.volumes[id].backend in s'.backends
    {
      assert LedgerOf(s').entries[id].backend in LedgerOf(s').accounts;
    }
  }

  lemma {:induction false} StartGrounded(s: State, c: Command)
    requires Grounded(s) && c.StartMigration? && Check(s, c).None?
    ensures
      var w := Step(s, c).next.migrationWorkers[s.opCounter + 1];
      w.source in s.backends && w.dest in s.backends
  {
  }

  /** A migration is only there after a step that refused to start it if it was there before. */
  lemma {:induction false} RefusedStartsNothing(s: State, c: Command)
    requires Check(s, c).Some?
    ensures Step(s, c).next == s
  {
    hide Check, Apply;
  }

  lemma {:induction false} GroundedStep(s: State, c: Command)
    requires Grounded(s)
    ensures Grounded(Step(s, c).next)
  {
    hide Step, Check;
    var s' := Step(s, c).next;
    VolumesGrounded(s, c);
    forall m | m in s'.migrationWorkers
      ensures s'.migrationWorkers[m].source in s'.backends && s'.migrationWorkers[m].dest in s'.backends
    {
      if Check(s, c).Some? {
        RefusedStartsNothing(s, c);
      } else if c.StartMigration? && m == s.opCounter + 1 {
        StartGrounded(s, c);
      } else {
        WorkerStep(s, c, m);
        var w := s.migrationWorkers[m];
        assert w.source in s.backends && w.dest in s.backends;
      }
    }
  }

  // ---- Global conservation ---------------------------------------------------------------------

  /** Allocated space over all backends that no volume accounts for. */
  ghost function AllocDrift(l: Ledger): int
  {
    Total(l.accounts, AllocOf) - Total(l.entries, SizeOf)
  }

  /** Used space over all backends that no thick volume accounts for. */
  ghost function UsedDrift(l: Ledger): int
  {
    Total(l.accounts, UsedOf) - Total(l.entries, ThickOf)
  }

  lemma CreditTotals(accounts: map<string, Account>, id: string, amount: int, thin: bool)
    requires id in accounts
    ensures Total(CreditOn(accounts, id, amount, thin), AllocOf) == Total(accounts, AllocOf) + amount
    ensures Total(CreditOn(accounts, id, amount, thin), UsedOf) ==
            Total(accounts, UsedOf) + if thin then 0 else amount
  {
    var a := Credit(accounts[id], amount, thin);
    TotalPut(accounts, id, a, AllocOf);
    TotalPut(accounts, id, a, UsedOf);
  }

  lemma EntryTotals(entries: map<string, Entry>, id: string, e: Entry)
    ensures Total(entries[id := e], SizeOf) ==
            Total(entries, SizeOf) - (if id in entries then entries[id].size else 0) + e.size
    ensures Total(entries[id := e], ThickOf) ==
            Total(entries, ThickOf) - (if id in entries then ThickOf(entries[id]) else 0) + ThickOf(e)
  {
    TotalPut(entries, id, e, SizeOf);
    TotalPut(entries, id, e, ThickOf);
  }

  /** No booking creates or loses space; a new backend brings in the counters it comes with. */
  lemma {:induction false} ConservationPost(l: Ledger, k: Booking)
    requires Placed(l) && Sound(l, k)
    ensures AllocDrift(Post(l, k)) == AllocDrift(l) + if k.Register? then k.account.alloc else 0
    ensures UsedDrift(Post(l, k)) == UsedDrift(l) + if k.Register? then k.account.used else 0
  {
    hide Total, Credit;
    match k
    case Nothing =>
    case Register(id, account) =>
      TotalPut(l.accounts, id, account, AllocOf);
      TotalPut(l.accounts, id, account, UsedOf);
    case Place(id, e) =>
      CreditTotals(l.accounts, e.backend, e.size, e.thin);
      EntryTotals(l.entries, id, e);
    case Remove(id) =>
      var e := l.entries[id];
      CreditTotals(l.accounts, e.backend, -e.size, e.thin);
      TotalSplit(l.entries, id, SizeOf);
      TotalSplit(l.entries, id, ThickOf);
    case Grow(id, newSize) =>
      var e := l.entries[id];
      CreditTotals(l.accounts, e.backend, newSize - e.size, e.thin);
      EntryTotals(l.entries, id, e.(size := newSize));
    case Move(id, source, dest, size, thin) =>
      MoveConserves(l, k);
  }

  lemma {:induction false} MoveConserves(l: Ledger, k: Booking)
    requires Placed(l) && Sound(l, k) && k.Move?
    ensures AllocDrift(Post(l, k)) == AllocDrift(l) && UsedDrift(Post(l, k)) == UsedDrift(l)
  {
    hide Total, Credit;
    CreditTotals(l.accounts, k.source, -k.size, k.thin);
    CreditTotals(CreditOn(l.accounts, k.source, -k.size, k.thin), k.dest, k.size, k.thin);
    EntryTotals(l.entries, k.id, l.entries[k.id].(backend := k.dest));
  }

  ghost predicate RegistersEmpty(c: Command)
  {
    c.AddBackend? ==> c.b.alloc == 0 && c.b.used == 0
  }

  lemma {:induction false} ConservationFrom(s: State, cs: seq<Command>)
    requires Grounded(s)
    requires forall c :: c in cs ==> RegistersEmpty(c)
    ensures AllocDrift(LedgerOf(Run(s, cs))) == AllocDrift(LedgerOf(s))
    ensures UsedDrift(LedgerOf(Run(s, cs))) == UsedDrift(LedgerOf(s))
    decreases |cs|
  {
    hide Check, Apply, Post, Grounded, AllocDrift, UsedDrift;
    if cs != [] {
      var c := cs[0];
      assert RegistersEmpty(c);
      StepPosts(s, c);
      StepSound(s, c);
      ConservationPost(LedgerOf(s), BookingOf(s, c));
      GroundedStep(s, c);
      ConservationFrom(Step(s, c).next, cs[1..]);
    }
  }

  /** Global conservation: in every interleaving of API calls and worker steps, including extending,
      deleting or migrating again a volume in flight, the counters of all backends together equal the
      sizes of all volumes together. */
  lemma {:induction false} GlobalConservation(cs: seq<Command>)
    requires forall c :: c in cs ==> RegistersEmpty(c)
    ensures var l := LedgerOf(Run(EMPTY, cs));
            Total(l.accounts, AllocOf) == Total(l.entries, SizeOf) &&
            Total(l.accounts, UsedOf) == Total(l.entries, ThickOf)
  {
    assert LedgerOf(EMPTY) == Ledger(map[], map[]);
    ConservationFrom(EMPTY, cs);
  }

  // ---- Per-backend exactness -------------------------------------------------------------------

  /** An account's counters equal the sums over the volumes placed on it. */
  ghost predicate ExactOn(l: Ledger, backend: string)
    requires backend in l.accounts
  {
    && l.accounts[backend].alloc == Total(l.entries, SizeOn(backend))
    && l.accounts[backend].used == Total(l.entries, ThickOn(backend))
  }

  ghost predicate Exact(l: Ledger)
  {
    forall backend :: backend in l.accounts ==> ExactOn(l, backend)
  }

  lemma ShiftOn(entries: map<string, Entry>, id: string, e: Entry, backend: string)
    ensures Total(entries[id := e], SizeOn(backend)) ==
            Total(entries, SizeOn(backend))
            - (if id in entries then SizeOn(backend)(entries[id]) else 0) + SizeOn(backend)(e)
    ensures Total(entries[id := e], ThickOn(backend)) ==
            Total(entries, ThickOn(backend))
            - (if id in entries then ThickOn(backend)(entries[id]) else 0) + ThickOn(backend)(e)
  {
    TotalPut(entries, id, e, SizeOn(backend));
    TotalPut(entries, id, e, ThickOn(backend));
  }

  lemma DropOn(entries: map<string, Entry>, id: string, backend: string)
    requires id in entries
    ensures Total(entries - {id}, SizeOn(backend)) ==
            Total(entries, SizeOn(backend)) - SizeOn(backend)(entries[id])
    ensures Total(entries - {id}, ThickOn(backend)) ==
            Total(entries, ThickOn(backend)) - ThickOn(backend)(entries[id])
  {
    TotalSplit(entries, id, SizeOn(backend));
    TotalSplit(entries, id, ThickOn(backend));
  }

  /** What is captured in the booking and what the volume is now weigh the same on every backend: both
      shift nothing, or both shift the same amount away from the same place. */
  predicate Balanced(l: Ledger, k: Booking)
    requires k.Move? && k.id in l.entries
  {
    var e := l.entries[k.id];
    var moved := if k.source == k.dest then 0 else k.size;
    var owed := if e.backend == k.dest then 0 else e.size;
    var movedThick := if k.source == k.dest || k.thin then 0 else k.size;
    var owedThick := if e.backend == k.dest || e.thin then 0 else e.size;
    && moved == owed
    && movedThick == owedThick
    && (moved != 0 ==> k.source == e.backend)
  }

  /** The counters of one backend after a move, against the volumes on it after the move. */
  lemma {:induction false} MoveOn(l: Ledger, k: Booking, backend: string)
    requires k.Move? && Sound(l, k) && backend in l.accounts && ExactOn(l, backend)
    ensures
      var e, l' := l.entries[k.id], Post(l, k);
      var gain := (if backend == k.dest then k.size else 0) - (if backend == k.source then k.size else 0);
      var owed := (if backend == k.dest then e.size else 0) - (if backend == e.backend then e.size else 0);
      && backend in l'.accounts
      && (ExactOn(l', backend) <==>
          && gain == owed
          && (if k.thin then 0 else gain) == (if e.thin then 0 else owed))
  {
    ShiftOn(l.entries, k.id, l.entries[k.id].(backend := k.dest), backend);
  }

  lemma {:induction false} ExactMoveBalances(l: Ledger, k: Booking)
    requires k.Move? && Placed(l) && Sound(l, k) && Exact(l) && Exact(Post(l, k))
    ensures Balanced(l, k)
  {
    var l', e := Post(l, k), l.entries[k.id];
    MoveOn(l, k, k.dest);
    MoveOn(l, k, k.source);
    MoveOn(l, k, e.backend);
    hide Post, ExactOn;
    assert ExactOn(l', k.dest) && ExactOn(l', k.source) && ExactOn(l', e.backend);
  }

  lemma {:induction false} BalancedMoveExact(l: Ledger, k: Booking)
    requires k.Move? && Placed(l) && Sound(l, k) && Exact(l) && Balanced(l, k)
    ensures Exact(Post(l, k))
  {
    var l' := Post(l, k);
    assert l'.accounts.Keys == l.accounts.Keys;
    hide Post, ExactOn;
    forall backend | backend in l'.accounts
      ensures ExactOn(l', backend)
    {
      MoveOn(l, k, backend);
    }
  }

  /** The completion step of a migration keeps the counters exact if and only if what it captured at its
      start balances against the volume as it is now. */
  lemma {:induction false} MoveExactIff(l: Ledger, k: Booking)
    requires k.Move? && Placed(l) && Sound(l, k) && Exact(l)
    ensures Exact(Post(l, k)) <==> Balanced(l, k)
  {
    hide Post, Exact, Balanced;
    if Exact(Post(l, k)) {
      ExactMoveBalances(l, k);
    }
    if Balanced(l, k) {
      BalancedMoveExact(l, k);
    }
  }

  /** Every other booking keeps the counters exact. */
  lemma {:induction false} ExactPost(l: Ledger, k: Booking)
    requires Placed(l) && Sound(l, k) && Exact(l)
    requires k.Register? ==> k.account.alloc == 0 && k.account.used == 0
    requires k.Move? ==> Balanced(l, k)
    ensures Exact(Post(l, k))
  {
    if k.Move? {
      MoveExactIff(l, k);
    } else {
      forall backend | backend in Post(l, k).accounts
        ensures ExactOn(Post(l, k), backend)
      {
        ExactPostOn(l, k, backend);
      }
    }
  }

  lemma {:induction false} ExactPostOn(l: Ledger, k: Booking, backend: string)
    requires Placed(l) && Sound(l, k) && !k.Move?
    requires backend in Post(l, k).accounts
    requires backend in l.accounts ==> ExactOn(l, backend)
    requires k.Register? ==> k.account.alloc == 0 && k.account.used == 0
    ensures ExactOn(Post(l, k), backend)
  {
    match k
    case Nothing =>
    case Register(id, _) =>
      if backend == id {
        TotalZero(l.entries, SizeOn(id));
        TotalZero(l.entries, ThickOn(id));
      }
    case Place(id, e) => ShiftOn(l.entries, id, e, backend);
    case Remove(id) => DropOn(l.entries, id, backend);
    case Grow(id, newSize) => ShiftOn(l.entries, id, l.entries[id].(size := newSize), backend);
  }

  // ---- Exactness over runs that leave volumes in flight alone -------------------------------------

  predicate InFlight(s: State, id: string)
  {
    exists mig :: mig in s.migrationWorkers && Live(s, mig) && s.migrationWorkers[mig].volume == id
  }

  /** The caller leaves volumes in flight alone and registers backends with zero counters. */
  ghost predicate Undisturbed(s: State, c: Command)
  {
    && RegistersEmpty(c)
    && (c.ExtendVolume? || c.DeleteVolume? || c.StartMigration? ==> !InFlight(s, c.id))
  }

  ghost predicate UndisturbedRun(s: State, cs: seq<Command>)
    decreases |cs|
  {
    cs == [] || (Undisturbed(s, cs[0]) && UndisturbedRun(Step(s, cs[0]).next, cs[1..]))
  }

  /** What StartMigration captured still describes the volume. */
  predicate Describes(w: MigrationWorker, entries: map<string, Entry>)
  {
    w.volume in entries && entries[w.volume] == Entry(w.source, w.size, w.thin)
  }

  /** Every migration in flight still has its facts right, and no volume is in flight twice. */
  ghost predicate Captured(s: State)
  {
    && (forall m :: m in s.migrationWorkers ==> m <= s.opCounter)
    && (forall m :: Live(s, m) ==> Describes(s.migrationWorkers[m], LedgerOf(s).entries))
    && (forall m, n :: Live(s, m) && Live(s, n) && s.migrationWorkers[m].volume == s.migrationWorkers[n].volume
          ==> m == n)
  }

  /** An undisturbed step books nothing about a volume in flight, except that its migration moves it. */
  lemma {:induction false} BooksElsewhere(s: State, c: Command, m: nat)
    requires Captured(s) && Undisturbed(s, c) && Live(s, m)
    requires c == MigrationStep(m) ==> !Moves(s, m)
    ensures
      var k := BookingOf(s, c);
      k.Nothing? || k.Register? || k.id != s.migrationWorkers[m].volume
  {
    var k, id := BookingOf(s, c), s.migrationWorkers[m].volume;
    assert InFlight(s, id);
    assert Describes(s.migrationWorkers[m], LedgerOf(s).entries);
    if k.Move? {
      assert Live(s, c.worker);
    }
  }

  lemma {:induction false} PostElsewhere(l: Ledger, k: Booking, id: string)
    requires id in l.entries && (k.Nothing? || k.Register? || k.id != id)
    ensures id in Post(l, k).entries && Post(l, k).entries[id] == l.entries[id]
  {
  }

  lemma {:induction false} DescribesStep(s: State, c: Command, m: nat)
    requires Captured(s) && Undisturbed(s, c) && Live(s, m)
    requires c == MigrationStep(m) ==> !Moves(s, m)
    ensures Describes(s.migrationWorkers[m], LedgerOf(Step(s, c).next).entries)
  {
    hide Step, Post, BookingOf, Undisturbed;
    StepPosts(s, c);
    BooksElsewhere(s, c, m);
    PostElsewhere(LedgerOf(s), BookingOf(s, c), s.migrationWorkers[m].volume);
  }

  /** The migration a step starts, if it starts one. */
  predicate Starts(s: State, c: Command, m: nat)
  {
    c.StartMigration? && m == s.opCounter + 1
  }

  lemma {:induction false} CapturedStep(s: State, c: Command)
    requires Captured(s) && Undisturbed(s, c)
    ensures Captured(Step(s, c).next)
  {
    var s' := Step(s, c).next;
    forall m | m in s'.migrationWorkers
      ensures m <= s'.opCounter
    {
      CounterStep(s, c);
      if !Starts(s, c, m) {
        WorkerStep(s, c, m);
      }
    }
    forall m | Live(s', m)
      ensures Describes(s'.migrationWorkers[m], LedgerOf(s').entries)
    {
      if Starts(s, c, m) {
        StartStep(s, c);
      } else {
        WorkerStep(s, c, m);
        DescribesStep(s, c, m);
      }
    }
    forall m, n | Live(s', m) && Live(s', n) && s'.migrationWorkers[m].volume == s'.migrationWorkers[n].volume
      ensures m == n
    {
      DistinctStep(s, c, m, n);
    }
  }

  lemma {:induction false} CounterStep(s: State, c: Command)
    ensures Step(s, c).next.opCounter >= s.opCounter
    ensures c.StartMigration? && Check(s, c).None? ==> Step(s, c).next.opCounter == s.opCounter + 1
  {
    if c.StartMigration? {
      if Check(s, c).None? {
      }
    } else if c.CancelMigration? {
      if Check(s, c).None? {
      }
    } else if c.MigrationStep? {
      if Live(s, c.worker) {
      }
    } else {
      MigrationsUntouched(s, c);
    }
  }

  /** A migration just started describes its volume, and its volume was not in flight before. */
  lemma {:induction false} StartStep(s: State, c: Command)
    requires Captured(s) && Undisturbed(s, c) && c.StartMigration?
    requires s.opCounter + 1 in Step(s, c).next.migrationWorkers
    ensures Describes(Step(s, c).next.migrationWorkers[s.opCounter + 1], LedgerOf(Step(s, c).next).entries)
    ensures forall n :: Live(s, n) ==>
              s.migrationWorkers[n].volume != Step(s, c).next.migrationWorkers[s.opCounter + 1].volume
  {
    assert Check(s, c).None?;
    assert !InFlight(s, c.id);
  }

  lemma {:induction false} DistinctStep(s: State, c: Command, m: nat, n: nat)
    requires Captured(s) && Undisturbed(s, c)
    requires Live(Step(s, c).next, m) && Live(Step(s, c).next, n)
    requires Step(s, c).next.migrationWorkers[m].volume == Step(s, c).next.migrationWorkers[n].volume
    ensures m == n
  {
    if !Starts(s, c, m) {
      WorkerStep(s, c, m);
    }
    if !Starts(s, c, n) {
      WorkerStep(s, c, n);
    }
    if Starts(s, c, m) != Starts(s, c, n) {
      StartStep(s, c);
    }
  }

  /** A new backend comes empty, and a move finds its volume as it was captured. */
  lemma {:induction false} BookingFair(s: State, c: Command)
    requires Captured(s) && Undisturbed(s, c)
    ensures
      var k := BookingOf(s, c);
      && (k.Register? ==> k.account.alloc == 0 && k.account.used == 0)
      && (k.Move? ==> k.id in LedgerOf(s).entries && Balanced(LedgerOf(s), k))
  {
    if c.MigrationStep? && Moves(s, c.worker) {
      assert Describes(s.migrationWorkers[c.worker], LedgerOf(s).entries);
    }
  }

  lemma {:induction false} ExactFrom(s: State, cs: seq<Command>)
    requires Grounded(s) && Captured(s) && Exact(LedgerOf(s)) && UndisturbedRun(s, cs)
    ensures Grounded(Run(s, cs)) && Captured(Run(s, cs)) && Exact(LedgerOf(Run(s, cs)))
    decreases |cs|
  {
    hide Step, Post, Grounded, Captured, Exact, Undisturbed;
    if cs != [] {
      var c := cs[0];
      StepPosts(s, c);
      StepSound(s, c);
      BookingFair(s, c);
      ExactPost(LedgerOf(s), BookingOf(s, c));
      GroundedStep(s, c);
      CapturedStep(s, c);
      ExactFrom(Step(s, c).next, cs[1..]);
    }
  }

  /** Per-backend exactness: in every run in which no volume is extended, deleted or migrated again while
      a migration of it is in flight, each backend's counters equal the sums over the volumes on it. */
  lemma {:induction false} PerBackendExactness(cs: seq<Command>)
    requires UndisturbedRun(EMPTY, cs)
    ensures Exact(LedgerOf(Run(EMPTY, cs)))
  {
    ExactFrom(EMPTY, cs);
  }

  // ---- Exactness over all runs --------------------------------------------------------------------

  /** A migration completes although what it captured at its start does not balance against the volume. */
  ghost predicate Unbalances(s: State, c: Command)
  {
    var k := BookingOf(s, c);
    k.Move? && k.id in LedgerOf(s).entries && !Balanced(LedgerOf(s), k)
  }

  ghost predicate StaysExact(s: State, cs: seq<Command>)
    decreases |cs|
  {
    Exact(LedgerOf(s)) && (cs == [] || StaysExact(Step(s, cs[0]).next, cs[1..]))
  }

  ghost predicate NeverUnbalances(s: State, cs: seq<Command>)
    decreases |cs|
  {
    cs == [] || (!Unbalances(s, cs[0]) && NeverUnbalances(Step(s, cs[0]).next, cs[1..]))
  }

  lemma {:induction false} ExactStepIff(s: State, c: Command)
    requires Grounded(s) && Exact(LedgerOf(s)) && RegistersEmpty(c)
    ensures Exact(LedgerOf(Step(s, c).next)) <==> !Unbalances(s, c)
  {
    StepPosts(s, c);
    StepSound(s, c);
    var l, k := LedgerOf(s), BookingOf(s, c);
    hide Step, Post, Grounded, Exact, Balanced, Check;
    if k.Move? {
      MoveExactIff(l, k);
    } else {
      ExactPost(l, k);
    }
  }

  lemma {:induction false} StaysExactFrom(s: State, cs: seq<Command>)
    requires Grounded(s) && Exact(LedgerOf(s)) && forall c :: c in cs ==> RegistersEmpty(c)
    ensures StaysExact(s, cs) <==> NeverUnbalances(s, cs)
    decreases |cs|
  {
    hide Step, Grounded, Exact, Unbalances;
    if cs != [] {
      assert RegistersEmpty(cs[0]);
      ExactStepIff(s, cs[0]);
      if !Unbalances(s, cs[0]) {
        GroundedStep(s, cs[0]);
        StaysExactFrom(Step(s, cs[0]).next, cs[1..]);
      }
    }
  }

  /** Exactly when every backend's counters equal the sums over the volumes on it at every point of a run,
      whatever is done to volumes in flight: when no migration completes out of balance. */
  lemma {:induction false} ExactRunIff(cs: seq<Command>)
    requires forall c :: c in cs ==> RegistersEmpty(c)
    ensures StaysExact(EMPTY, cs) <==> NeverUnbalances(EMPTY, cs)
  {
    StaysExactFrom(EMPTY, cs);
  }
}
