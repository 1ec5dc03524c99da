/** Capacity bounds: what the admission checks guarantee over every run without migrations. */
module StorageBounds {
  import opened Basics
  import opened Sums
  import opened StorageModel
  import opened StorageLedger
  import opened StorageAccounting

  /** The thin-provisioning limit of an account. */
  function Limit(a: Account): int
  {
    Scaled(a.total, a.ratio)
  }

  predicate Room(a: Account, amount: int, thin: bool)
  {
    if thin then a.alloc + amount <= Limit(a) else a.used + amount <= a.total
  }

  /** What the store's checks established before the booking. */
  predicate Admitted(l: Ledger, k: Booking)
  {
    && (k.Place? ==> k.entry.backend in l.accounts && Room(l.accounts[k.entry.backend], k.entry.size, k.entry.thin))
    && (k.Grow? ==>
          && k.id in l.entries && l.entries[k.id].backend in l.accounts
          && l.entries[k.id].size <= k.newSize
          && Room(l.accounts[l.entries[k.id].backend], k.newSize - l.entries[k.id].size, l.entries[k.id].thin))
  }

  lemma {:induction false} StepAdmitted(s: State, c: Command)
    ensures Admitted(LedgerOf(s), BookingOf(s, c))
  {
  }

  /** The caller registers empty backends of non-negative capacity and creates volumes of non-negative size. */
  predicate Sane(c: Command)
  {
    && (c.AddBackend? ==> c.b.alloc == 0 && c.b.used == 0 && c.b.total >= 0 && c.b.ratio >= 0.0)
    && (c.CreateVolume? ==> c.v.size >= 0)
  }

  /** And does not migrate. */
  predicate Modest(c: Command)
  {
    Sane(c) && !c.StartMigration?
  }

  predicate Within(a: Account)
  {
    && a.total >= 0 && a.ratio >= 0.0
    && 0 <= a.used <= a.total
    && a.alloc - a.used <= Limit(a)
  }

  predicate Bounded(l: Ledger)
  {
    && (forall b :: b in l.accounts ==> Within(l.accounts[b]))
    && (forall id :: id in l.entries ==> l.entries[id].size >= 0)
  }

  predicate Sized(s: State)
  {
    && s.migrationWorkers == map[]
    && (forall id :: id in s.snapshots ==> s.snapshots[id].size >= 0)
  }

  lemma LimitNonNegative(total: int, ratio: real)
    requires total >= 0 && ratio >= 0.0
    ensures Scaled(total, ratio) >= 0
  {
    assert total as real * ratio >= 0.0;
  }

  lemma {:induction false} UsedNonNegative(l: Ledger, backend: string)
    requires backend in l.accounts && ExactOn(l, backend)
    requires forall id :: id in l.entries ==> l.entries[id].size >= 0
    ensures 0 <= l.accounts[backend].used <= l.accounts[backend].alloc
  {
    TotalNonNegative(l.entries, ThickOn(backend));
    ThinPart(l.entries, backend);
  }

  function ThinOn(backend: string): Entry -> int
  {
    (e: Entry) => if e.backend == backend && e.thin then e.size else 0
  }

  /** Thick and thin volumes on a backend together are all volumes on it. */
  lemma {:induction false} ThinSplit(entries: map<string, Entry>, backend: string)
    ensures Total(entries, SizeOn(backend)) == Total(entries, ThickOn(backend)) + Total(entries, ThinOn(backend))
    decreases |entries|
  {
    if entries != map[] {
      var id :| id in entries;
      TotalSplit(entries, id, SizeOn(backend));
      TotalSplit(entries, id, ThickOn(backend));
      TotalSplit(entries, id, ThinOn(backend));
      assert (entries - {id}).Keys == entries.Keys - {id};
      ThinSplit(entries - {id}, backend);
    }
  }

  lemma ThinPart(entries: map<string, Entry>, backend: string)
    requires forall id :: id in entries ==> entries[id].size >= 0
    ensures Total(entries, SizeOn(backend)) >= Total(entries, ThickOn(backend))
  {
    ThinSplit(entries, backend);
    TotalNonNegative(entries, ThinOn(backend));
  }

  /** Room for more, or giving some back, keeps an account within its bounds. */
  lemma WithinCredit(a: Account, amount: int, thin: bool)
    requires Within(a) && (amount <= 0 || Room(a, amount, thin)) && Credit(a, amount, thin).used >= 0
    ensures Within(Credit(a, amount, thin))
  {
    assert Limit(Credit(a, amount, thin)) == Limit(a);
  }

  lemma {:induction false} WithinPost(l: Ledger, k: Booking, backend: string)
    requires Placed(l) && Sound(l, k) && Bounded(l) && Admitted(l, k)
    requires !k.Move? && (k.Register? ==> Within(k.account))
    requires backend in Post(l, k).accounts && Post(l, k).accounts[backend].used >= 0
    ensures Within(Post(l, k).accounts[backend])
  {
    match k
    case Nothing =>
    case Register(_, _) =>
    case Place(_, e) =>
      if e.backend == backend {
        WithinCredit(l.accounts[backend], e.size, e.thin);
      }
    case Remove(id) =>
      var e := l.entries[id];
      if e.backend == backend {
        WithinCredit(l.accounts[backend], -e.size, e.thin);
      }
    case Grow(id, newSize) =>
      var e := l.entries[id];
      if e.backend == backend {
        WithinCredit(l.accounts[backend], newSize - e.size, e.thin);
      }
  }

  lemma {:induction false} BoundedPost(l: Ledger, k: Booking)
    requires Placed(l) && Sound(l, k) && Bounded(l) && Admitted(l, k) && Exact(Post(l, k))
    requires !k.Move? && (k.Place? ==> k.entry.size >= 0)
    requires k.Register? ==> Within(k.account)
    ensures Bounded(Post(l, k))
  {
    forall id | id in Post(l, k).entries
      ensures Post(l, k).entries[id].size >= 0
    {
    }
    forall backend | backend in Post(l, k).accounts
      ensures Within(Post(l, k).accounts[backend])
    {
      assert ExactOn(Post(l, k), backend);
      UsedNonNegative(Post(l, k), backend);
      WithinPost(l, k, backend);
    }
  }

  lemma {:induction false} SizedStep(s: State, c: Command)
    requires Sized(s) && Modest(c)
    requires forall id :: id in LedgerOf(s).entries ==> LedgerOf(s).entries[id].size >= 0
    ensures Sized(Step(s, c).next)
    ensures !BookingOf(s, c).Move?
    ensures BookingOf(s, c).Place? ==> BookingOf(s, c).entry.size >= 0
    ensures BookingOf(s, c).Register? ==>
              var a := BookingOf(s, c).account;
              Within(a) && a.alloc == 0 && a.used == 0
  {
    if c.AddBackend? {
      var b := WithDefaults(c.b);
      LimitNonNegative(b.total, b.ratio);
    } else if c.CreateSnapshot? && c.id in s.volumes {
      assert LedgerOf(s).entries[c.id].size >= 0;
    }
  }

  lemma {:induction false} BoundsFrom(s: State, cs: seq<Command>)
    requires Grounded(s) && Exact(LedgerOf(s)) && Bounded(LedgerOf(s)) && Sized(s)
    requires forall c :: c in cs ==> Modest(c)
    ensures Exact(LedgerOf(Run(s, cs))) && Bounded(LedgerOf(Run(s, cs)))
    decreases |cs|
  {
    hide Step, Post, Grounded, Exact, Within, Sized, Scaled;
    if cs != [] {
      var c := cs[0];
      assert Modest(c);
      StepPosts(s, c);
      StepSound(s, c);
      StepAdmitted(s, c);
      SizedStep(s, c);
      ExactPost(LedgerOf(s), BookingOf(s, c));
      BoundedPost(LedgerOf(s), BookingOf(s, c));
      GroundedStep(s, c);
      BoundsFrom(Step(s, c).next, cs[1..]);
    }
  }

  /** Thick space is within the total, thin space within the over-provisioned total, both together within
      the sum of the two; with thin volumes only, allocation is within the over-provisioned total. */
  predicate InBounds(s: State, backend: string)
    requires backend in s.backends
  {
    var b := s.backends[backend];
    && 0 <= b.used <= b.total
    && 0 <= b.alloc - b.used <= MaxAlloc(b)
    && b.alloc <= MaxAlloc(b) + b.total
    && ((forall id :: id in s.volumes && s.volumes[id].backend == backend ==> s.volumes[id].thin) ==>
          b.alloc <= MaxAlloc(b))
  }

  lemma {:induction false} LedgerInBounds(s: State, backend: string)
    requires Exact(LedgerOf(s)) && Bounded(LedgerOf(s)) && backend in s.backends
    ensures InBounds(s, backend)
  {
    var l := LedgerOf(s);
    assert Within(l.accounts[backend]) && ExactOn(l, backend);
    UsedNonNegative(l, backend);
    assert Limit(l.accounts[backend]) == MaxAlloc(s.backends[backend]);
    if forall id :: id in s.volumes && s.volumes[id].backend == backend ==> s.volumes[id].thin {
      TotalZero(l.entries, ThickOn(backend));
    }
  }

  /** Capacity bounds, over every run without migrations and with sizes that are not negative. */
  lemma {:induction false} CapacityBounds(cs: seq<Command>, backend: string)
    requires forall c :: c in cs ==> Modest(c)
    requires backend in Run(EMPTY, cs).backends
    ensures InBounds(Run(EMPTY, cs), backend)
  {
    BoundsFrom(EMPTY, cs);
    LedgerInBounds(Run(EMPTY, cs), backend);
  }

  /** Allocation on every backend is within the over-provisioned total. */
  predicate Tight(l: Ledger)
  {
    forall b :: b in l.accounts ==> l.accounts[b].alloc <= Limit(l.accounts[b])
  }

  /** A create or extend that is let through although it would not be if the volume were thin. */
  predicate Overcommits(s: State, c: Command)
  {
    && Check(s, c).None?
    && (c.CreateVolume? || c.ExtendVolume?)
    && if c.CreateVolume? then
         !Fits(s.backends[c.v.backend], c.v.size, true)
       else
         !Fits(s.backends[s.volumes[c.id].backend], c.newSize - s.volumes[c.id].size, true)
  }

  /** What Overcommits is on the ledger: the account charged has no room at the thin limit. */
  predicate Oversteps(l: Ledger, k: Booking)
    requires Admitted(l, k)
  {
    || (k.Place? && !Room(l.accounts[k.entry.backend], k.entry.size, true))
    || (k.Grow? && !Room(l.accounts[l.entries[k.id].backend], k.newSize - l.entries[k.id].size, true))
  }

  lemma {:induction false} OvercommitsOversteps(s: State, c: Command)
    requires Admitted(LedgerOf(s), BookingOf(s, c))
    ensures Overcommits(s, c) <==> Oversteps(LedgerOf(s), BookingOf(s, c))
  {
    hide Scaled;
  }

  lemma {:induction false} TightPost(l: Ledger, k: Booking)
    requires Tight(l) && Admitted(l, k) && !k.Move?
    requires k.Register? ==> k.account.alloc <= Limit(k.account)
    requires forall id :: id in l.entries ==> l.entries[id].size >= 0
    ensures Tight(Post(l, k)) <==> !Oversteps(l, k)
  {
    hide Scaled;
    if k.Place? {
      assert k.entry.backend in Post(l, k).accounts;
    } else if k.Grow? {
      assert l.entries[k.id].backend in Post(l, k).accounts;
    }
  }

  /** The tighter bound at every point of a run. */
  ghost predicate StaysTight(s: State, cs: seq<Command>)
    decreases |cs|
  {
    Tight(LedgerOf(s)) && (cs == [] || StaysTight(Step(s, cs[0]).next, cs[1..]))
  }

  ghost predicate NeverOvercommits(s: State, cs: seq<Command>)
    decreases |cs|
  {
    cs == [] || (!Overcommits(s, cs[0]) && NeverOvercommits(Step(s, cs[0]).next, cs[1..]))
  }

  lemma {:induction false} StaysTightFrom(s: State, cs: seq<Command>)
    requires Grounded(s) && Exact(LedgerOf(s)) && Bounded(LedgerOf(s)) && Sized(s) && Tight(LedgerOf(s))
    requires forall c :: c in cs ==> Modest(c)
    ensures StaysTight(s, cs) <==> NeverOvercommits(s, cs)
    decreases |cs|
  {
    hide Step, Post, Grounded, Exact, Sized, Scaled, Check, Overcommits, Oversteps, Tight, Admitted;
    if cs != [] {
      var c := cs[0];
      assert Modest(c);
      StepPosts(s, c);
      StepSound(s, c);
      StepAdmitted(s, c);
      SizedStep(s, c);
      OvercommitsOversteps(s, c);
      if BookingOf(s, c).Register? {
        LimitNonNegative(BookingOf(s, c).account.total, BookingOf(s, c).account.ratio);
      }
      TightPost(LedgerOf(s), BookingOf(s, c));
      if !Overcommits(s, c) {
        ExactPost(LedgerOf(s), BookingOf(s, c));
        BoundedPost(LedgerOf(s), BookingOf(s, c));
        GroundedStep(s, c);
        StaysTightFrom(Step(s, c).next, cs[1..]);
      }
    }
  }

  /** Exactly when a run keeps allocation within the over-provisioned total at every point: when no
      thick create or extend is let through where the thin test would have refused it. */
  lemma {:induction false} TightLimitIff(cs: seq<Command>)
    requires forall c :: c in cs ==> Modest(c)
    ensures StaysTight(EMPTY, cs) <==> NeverOvercommits(EMPTY, cs)
  {
    StaysTightFrom(EMPTY, cs);
  }

  lemma {:induction false} RunOfThree(s: State, c0: Command, c1: Command, c2: Command)
    ensures Run(s, [c0, c1, c2]) == Step(Step(Step(s, c0).next, c1).next, c2).next
  {
    hide Step;
    assert [c0, c1, c2][1..] == [c1, c2] && [c1, c2][1..] == [c2] && [c2][1..] == [];
    var s1 := Step(s, c0).next;
    var s2 := Step(s1, c1).next;
    assert Run(s, [c0, c1, c2]) == Run(s1, [c1, c2]) == Run(s2, [c2]);
  }

  lemma {:induction false} FirstBackend(id: string, b: Backend)
    requires id != ""
    ensures Step(EMPTY, AddBackend(id, b)).next.backends == map[id := WithDefaults(b)]
    ensures Step(EMPTY, AddBackend(id, b)).next.volumes == map[]
  {
    hide WithDefaults;
    assert Check(EMPTY, AddBackend(id, b)) == None;
  }

  /** A volume that fits on the only backend is booked there. */
  lemma {:induction false} SoleBackendCreate(s: State, id: string, v: Volume, b: Backend)
    requires s.backends == map[v.backend := b] && b.state == "active"
    requires id != "" && id !in s.volumes && Fits(b, v.size, v.thin)
    ensures Step(s, CreateVolume(id, v)).next.backends == map[v.backend := Charge(b, v.size, v.thin)]
    ensures Step(s, CreateVolume(id, v)).next.volumes.Keys == s.volumes.Keys + {id}
  {
    hide Fits, Charge;
    assert Check(s, CreateVolume(id, v)) == None;
  }

  /** The tighter bound fails as soon as thick and thin volumes share a backend: the thick branch does not
      look at what is already allocated. */
  lemma {:induction false} SharedBackendExceedsLimit()
    ensures
      var thin := Volume("b", 10, 0, true, false, None, [], "");
      var cs := [AddBackend("b", Backend(10, 0, 0, "", 1.0)),
                 CreateVolume("v", thin), CreateVolume("w", thin.(thin := false))];
      var b := Backend(10, 10, 20, "active", 1.0);
      && (forall c :: c in cs ==> Modest(c))
      && "b" in Run(EMPTY, cs).backends && Run(EMPTY, cs).backends["b"] == b
      && b.alloc > MaxAlloc(b)
  {
    hide Run, Step, Check, Apply;
    var thin := Volume("b", 10, 0, true, false, None, [], "");
    var c0, c1, c2 := AddBackend("b", Backend(10, 0, 0, "", 1.0)),
        CreateVolume("v", thin), CreateVolume("w", thin.(thin := false));
    var b := Backend(10, 0, 0, "active", 1.0);
    RunOfThree(EMPTY, c0, c1, c2);
    var s1 := Step(EMPTY, c0).next;
    FirstBackend("b", Backend(10, 0, 0, "", 1.0));
    SoleBackendCreate(s1, "v", thin, b);
    SoleBackendCreate(Step(s1, c1).next, "w", thin.(thin := false), Charge(b, 10, true));
  }
}
