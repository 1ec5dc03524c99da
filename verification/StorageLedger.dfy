/** The capacity ledger: what the store's steps mean for capacity accounting alone.

    A ledger forgets snapshots, exports and worker progress and keeps the backend counters beside the
    placement of every volume. Each step of the store posts at most one booking to it (StepPosts). */
module StorageLedger {
  import opened StorageModel

  datatype Account = Account(total: int, ratio: real, used: int, alloc: int)

  datatype Entry = Entry(backend: string, size: int, thin: bool)

  datatype Ledger = Ledger(accounts: map<string, Account>, entries: map<string, Entry>)

  datatype Booking =
    | Nothing
    | Register(id: string, account: Account)
    | Place(id: string, entry: Entry)
    | Remove(id: string)
    | Grow(id: string, newSize: int)
    | Move(id: string, source: string, dest: string, size: int, thin: bool)

  function AccountOf(b: Backend): Account
  {
    Account(b.total, b.ratio, b.used, b.alloc)
  }

  function EntryOf(v: Volume): Entry
  {
    Entry(v.backend, v.size, v.thin)
  }

  function Accounts(backends: map<string, Backend>): map<string, Account>
  {
    map id | id in backends :: AccountOf(backends[id])
  }

  function Entries(volumes: map<string, Volume>): map<string, Entry>
  {
    map id | id in volumes :: EntryOf(volumes[id])
  }

  function LedgerOf(s: State): Ledger
  {
    Ledger(Accounts(s.backends), Entries(s.volumes))
  }

  /** `amount` moved onto an account; thin space does not count as used. */
  function Credit(a: Account, amount: int, thin: bool): Account
  {
    a.(alloc := a.alloc + amount, used := if thin then a.used else a.used + amount)
  }

  function CreditOn(accounts: map<string, Account>, id: string, amount: int, thin: bool): map<string, Account>
  {
    if id in accounts then accounts[id := Credit(accounts[id], amount, thin)] else accounts
  }

  /** The ledger after a booking. */
  function Post(l: Ledger, k: Booking): Ledger
  {
    match k
    case Nothing => l
    case Register(id, account) => l.(accounts := l.accounts[id := account])
    case Place(id, e) =>
      Ledger(CreditOn(l.accounts, e.backend, e.size, e.thin), l.entries[id := e])
    case Remove(id) =>
      if id !in l.entries then l
      else
        var e := l.entries[id];
        Ledger(CreditOn(l.accounts, e.backend, -e.size, e.thin), l.entries - {id})
    case Grow(id, newSize) =>
      if id !in l.entries then l
      else
        var e := l.entries[id];
        Ledger(CreditOn(l.accounts, e.backend, newSize - e.size, e.thin), l.entries[id := e.(size := newSize)])
    case Move(id, source, dest, size, thin) =>
      if id !in l.entries then l
      else
        Ledger(CreditOn(CreditOn(l.accounts, source, -size, thin), dest, size, thin),
               l.entries[id := l.entries[id].(backend := dest)])
  }

  /** The booking a step posts. */
  function BookingOf(s: State, c: Command): Booking
  {
    if Check(s, c).Some? then Nothing
    else
      match c
      case AddBackend(id, b) => Register(id, AccountOf(WithDefaults(b)))
      case CreateVolume(id, v) => Place(id, EntryOf(v))
      case CloneFromSnapshot(snapshotId, id) => Place(id, EntryOf(CloneOf(s, snapshotId)))
      case DeleteVolume(id) => Remove(id)
      case ExtendVolume(id, newSize) => Grow(id, newSize)
      case MigrationStep(mig) =>
        if Moves(s, mig) then
          var w := s.migrationWorkers[mig];
          Move(w.volume, w.source, w.dest, w.size, w.thin)
        else Nothing
      case _ => Nothing
  }

  lemma AccountsPut(backends: map<string, Backend>, id: string, b: Backend)
    ensures Accounts(backends[id := b]) == Accounts(backends)[id := AccountOf(b)]
    ensures id in backends && AccountOf(b) == AccountOf(backends[id]) ==>
              Accounts(backends[id := b]) == Accounts(backends)
  {
  }

  lemma BookMirrors(backends: map<string, Backend>, id: string, amount: int, thin: bool)
    ensures Accounts(Book(backends, id, amount, thin)) == CreditOn(Accounts(backends), id, amount, thin)
  {
    if id in backends {
      AccountsPut(backends, id, Charge(backends[id], amount, thin));
    }
  }

  lemma EntriesPut(volumes: map<string, Volume>, id: string, v: Volume)
    ensures Entries(volumes[id := v]) == Entries(volumes)[id := EntryOf(v)]
    ensures id in volumes && EntryOf(v) == EntryOf(volumes[id]) ==> Entries(volumes[id := v]) == Entries(volumes)
  {
  }

  lemma EntriesDrop(volumes: map<string, Volume>, id: string)
    ensures Entries(volumes - {id}) == Entries(volumes) - {id}
  {
  }

  lemma {:induction false} FlattenPosts(s: State, op: nat)
    ensures LedgerOf(FlattenRegion(s, op)) == LedgerOf(s)
  {
    if Flattens(s, op) {
      var id := s.flattenWorkers[op].volume;
      EntriesPut(s.volumes, id, Flattened(s.volumes[id]));
    }
  }

  lemma {:induction false} MigrationPosts(s: State, mig: nat)
    ensures LedgerOf(MigrationRegion(s, mig)) == Post(LedgerOf(s), BookingOf(s, MigrationStep(mig)))
  {
    if Moves(s, mig) {
      var w := s.migrationWorkers[mig];
      BookMirrors(s.backends, w.source, -w.size, w.thin);
      BookMirrors(Book(s.backends, w.source, -w.size, w.thin), w.dest, w.size, w.thin);
      EntriesPut(s.volumes, w.volume, s.volumes[w.volume].(backend := w.dest));
    }
  }

  lemma {:induction false} ResizePosts(s: State, c: Command)
    requires Check(s, c).None? && (c.DeleteVolume? || c.ExtendVolume?)
    ensures LedgerOf(Apply(s, c)) == Post(LedgerOf(s), BookingOf(s, c))
  {
    var v := s.volumes[c.id];
    if c.DeleteVolume? {
      BookMirrors(s.backends, v.backend, -v.size, v.thin);
      EntriesDrop(s.volumes, c.id);
    } else {
      BookMirrors(s.backends, v.backend, c.newSize - v.size, v.thin);
      EntriesPut(s.volumes, c.id, v.(size := c.newSize));
    }
  }

  lemma {:induction false} PlacePosts(s: State, c: Command)
    requires Check(s, c).None? && (c.CreateVolume? || c.CloneFromSnapshot?)
    ensures LedgerOf(Apply(s, c)) == Post(LedgerOf(s), BookingOf(s, c))
  {
    var v := if c.CreateVolume? then c.v.(inUse := false, consumed := 0) else CloneOf(s, c.snapshotId);
    BookMirrors(s.backends, v.backend, v.size, v.thin);
    EntriesPut(s.volumes, c.id, v);
  }

  lemma {:induction false} RelabelPosts(s: State, c: Command)
    requires Check(s, c).None?
    requires c.SetBackendState? || c.ExportVolume? || c.UnexportVolume? || c.CreateSnapshot? || c.DeleteSnapshot?
    ensures LedgerOf(Apply(s, c)) == LedgerOf(s)
  {
    if c.SetBackendState? {
      AccountsPut(s.backends, c.id, s.backends[c.id].(state := c.backendState));
    } else {
      var id := if c.DeleteSnapshot? then s.snapshots[c.snapshotId].volume else c.id;
      if id in s.volumes {
        EntriesPut(s.volumes, id, Apply(s, c).volumes[id]);
      }
    }
  }

  /** Every step of the store is one posting on the ledger. */
  lemma {:induction false} StepPosts(s: State, c: Command)
    ensures LedgerOf(Step(s, c).next) == Post(LedgerOf(s), BookingOf(s, c))
  {
    if Check(s, c).None? {
      match c
      case AddBackend(id, b) => AccountsPut(s.backends, id, WithDefaults(b));
      case CreateVolume(_, _) => PlacePosts(s, c);
      case CloneFromSnapshot(_, _) => PlacePosts(s, c);
      case DeleteVolume(_) => ResizePosts(s, c);
      case ExtendVolume(_, _) => ResizePosts(s, c);
      case MigrationStep(mig) => MigrationPosts(s, mig);
      case FlattenStep(op) => FlattenPosts(s, op);
      case StartFlatten(_) =>
      case StartMigration(_, _) =>
      case CancelMigration(_) =>
      case _ => RelabelPosts(s, c);
    }
  }
}
