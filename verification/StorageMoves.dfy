/** Capacity bounds in runs with migrations: exactly which of them keep every backend within its bounds. */
module StorageMoves {
  import opened Sums
  import opened StorageModel
  import opened StorageLedger
  import opened StorageAccounting
  import opened StorageBounds

  /** Thick space between nothing and the total, thin space between nothing and the over-provisioned total. */
  predicate Sober(a: Account)
  {
    0 <= a.used <= a.total && 0 <= a.alloc - a.used <= Limit(a)
  }

  predicate AllSober(l: Ledger)
  {
    forall b :: b in l.accounts ==> Sober(l.accounts[b])
  }

  /** The account has the amount that is taken off it. */
  predicate Covers(a: Account, amount: int, thin: bool)
  {
    amount <= if thin then a.alloc - a.used else a.used
  }

  /** The account has room for the amount. */
  predicate Holds(a: Account, amount: int, thin: bool)
  {
    if thin then a.alloc - a.used + amount <= Limit(a) else a.used + amount <= a.total
  }

  /** The booking takes more off an account than is there, or moves more onto one than it has room for. */
  predicate Overdraws(l: Ledger, k: Booking)
    requires Placed(l) && Sound(l, k)
  {
    || (k.Remove? && !Covers(l.accounts[l.entries[k.id].backend], l.entries[k.id].size, l.entries[k.id].thin))
    || (k.Move? && k.source != k.dest &&
        (!Covers(l.accounts[k.source], k.size, k.thin) || !Holds(l.accounts[k.dest], k.size, k.thin)))
  }

  predicate SizesFrom(l: Ledger, k: Booking)
  {
    && (forall id :: id in l.entries ==> l.entries[id].size >= 0)
    && (k.Place? ==> k.entry.size >= 0)
    && (k.Move? ==> k.size >= 0)
    && (k.Register? ==> Sober(k.account))
  }

  /** What a credit within its room, or a debit, does to an account. */
  lemma {:induction false} CreditSober(a: Account, amount: int, thin: bool)
    requires Sober(a)
    ensures amount >= 0 ==> (Sober(Credit(a, amount, thin)) <==> Holds(a, amount, thin))
    ensures amount <= 0 ==> (Sober(Credit(a, amount, thin)) <==> Covers(a, -amount, thin))
    ensures amount >= 0 && Room(a, amount, thin) ==> Holds(a, amount, thin)
  {
    hide Scaled;
    assert Limit(Credit(a, amount, thin)) == Limit(a);
  }

  /** Only the account a booking changes can leave its bounds. */
  lemma {:induction false} CreditOnSober(accounts: map<string, Account>, id: string, amount: int, thin: bool)
    requires id in accounts && forall b :: b in accounts ==> Sober(accounts[b])
    ensures
      var after := CreditOn(accounts, id, amount, thin);
      (forall b :: b in after ==> Sober(after[b])) <==> Sober(Credit(accounts[id], amount, thin))
  {
    hide Sober, Credit;
    var after := CreditOn(accounts, id, amount, thin);
    if Sober(Credit(accounts[id], amount, thin)) {
      forall b | b in after
        ensures Sober(after[b])
      {
      }
    } else {
      assert !Sober(after[id]);
    }
  }

  lemma {:induction false} MoveSober(l: Ledger, k: Booking)
    requires Placed(l) && Sound(l, k) && AllSober(l) && k.Move? && k.size >= 0
    ensures AllSober(Post(l, k)) <==> !Overdraws(l, k)
  {
    var after := Post(l, k).accounts;
    if k.source == k.dest {
      assert Credit(Credit(l.accounts[k.source], -k.size, k.thin), k.size, k.thin) == l.accounts[k.source];
      assert after == l.accounts;
    } else {
      CreditSober(l.accounts[k.source], -k.size, k.thin);
      CreditSober(l.accounts[k.dest], k.size, k.thin);
      assert after == l.accounts[k.source := Credit(l.accounts[k.source], -k.size, k.thin)]
                                [k.dest := Credit(l.accounts[k.dest], k.size, k.thin)];
      hide Sober, Credit, Covers, Holds;
      assert k.source in after && k.dest in after;
    }
  }

  /** A booking the store lets through keeps every backend within its bounds if and only if it does not
      overdraw one. */
  lemma {:induction false} SoberPostIff(l: Ledger, k: Booking)
    requires Placed(l) && Sound(l, k) && AllSober(l) && Admitted(l, k) && SizesFrom(l, k)
    ensures AllSober(Post(l, k)) <==> !Overdraws(l, k)
  {
    hide Sober, Credit, Covers, Holds, Room;
    match k
    case Nothing =>
    case Register(_, _) =>
    case Place(_, e) =>
      CreditSober(l.accounts[e.backend], e.size, e.thin);
      CreditOnSober(l.accounts, e.backend, e.size, e.thin);
    case Remove(id) =>
      var e := l.entries[id];
      CreditSober(l.accounts[e.backend], -e.size, e.thin);
      CreditOnSober(l.accounts, e.backend, -e.size, e.thin);
    case Grow(id, newSize) =>
      var e := l.entries[id];
      CreditSober(l.accounts[e.backend], newSize - e.size, e.thin);
      CreditOnSober(l.accounts, e.backend, newSize - e.size, e.thin);
    case Move(_, _, _, _, _) =>
      MoveSober(l, k);
  }

  // ---- All runs ------------------------------------------------------------------------------------

  /** No volume, snapshot or captured size is negative. */
  ghost predicate Sizes(s: State)
  {
    && (forall id :: id in s.volumes ==> s.volumes[id].size >= 0)
    && (forall id :: id in s.snapshots ==> s.snapshots[id].size >= 0)
    && (forall m :: m in s.migrationWorkers ==> s.migrationWorkers[m].size >= 0)
  }

  lemma {:induction false} BookingSizes(s: State, c: Command)
    requires Sizes(s) && Sane(c)
    ensures SizesFrom(LedgerOf(s), BookingOf(s, c))
  {
    if c.AddBackend? {
      var b := WithDefaults(c.b);
      LimitNonNegative(b.total, b.ratio);
    }
  }

  lemma {:induction false} PostSizes(l: Ledger, k: Booking)
    requires SizesFrom(l, k) && Admitted(l, k)
    ensures forall id :: id in Post(l, k).entries ==> Post(l, k).entries[id].size >= 0
  {
    hide Sober, Room;
  }

  lemma {:induction false} WorkerSizes(s: State, c: Command, m: nat)
    requires Sizes(s) && m in Step(s, c).next.migrationWorkers
    ensures Step(s, c).next.migrationWorkers[m].size >= 0
  {
    if c.StartMigration? && m == s.opCounter + 1 {
      if Check(s, c).None? {
      }
    } else {
      WorkerStep(s, c, m);
    }
  }

  lemma {:induction false} SnapshotSizes(s: State, c: Command, x: string)
    requires Sizes(s) && x in Step(s, c).next.snapshots
    ensures Step(s, c).next.snapshots[x].size >= 0
  {
    if Check(s, c).None? {
      if c.MigrationStep? {
      } else if c.FlattenStep? {
      } else {
      }
    }
  }

  lemma {:induction false} SizesStep(s: State, c: Command)
    requires Sizes(s) && Sane(c)
    ensures Sizes(Step(s, c).next)
  {
    hide Step, BookingOf, Post, SizesFrom, Admitted, Sane;
    var s' := Step(s, c).next;
    BookingSizes(s, c);
    StepAdmitted(s, c);
    StepPosts(s, c);
    PostSizes(LedgerOf(s), BookingOf(s, c));
    forall id | id in s'.volumes
      ensures s'.volumes[id].size >= 0
    {
      assert LedgerOf(s').entries[id].size >= 0;
    }
    forall x | x in s'.snapshots
      ensures s'.snapshots[x].size >= 0
    {
      SnapshotSizes(s, c, x);
    }
    forall m | m in s'.migrationWorkers
      ensures s'.migrationWorkers[m].size >= 0
    {
      WorkerSizes(s, c, m);
    }
  }

  ghost predicate OverdrawsAt(s: State, c: Command)
    requires Grounded(s)
  {
    StepSound(s, c);
    Overdraws(LedgerOf(s), BookingOf(s, c))
  }

  ghost predicate StaysSober(s: State, cs: seq<Command>)
    decreases |cs|
  {
    AllSober(LedgerOf(s)) && (cs == [] || StaysSober(Step(s, cs[0]).next, cs[1..]))
  }

  ghost predicate NeverOverdraws(s: State, cs: seq<Command>)
    requires Grounded(s)
    decreases |cs|
  {
    cs == [] || (GroundedStep(s, cs[0]); !OverdrawsAt(s, cs[0]) && NeverOverdraws(Step(s, cs[0]).next, cs[1..]))
  }

  lemma {:induction false} SoberStepIff(s: State, c: Command)
    requires Grounded(s) && Sizes(s) && AllSober(LedgerOf(s)) && Sane(c)
    ensures AllSober(LedgerOf(Step(s, c).next)) <==> !OverdrawsAt(s, c)
  {
    hide Step, BookingOf, Post, SizesFrom, Admitted, Sane, AllSober, Overdraws, Grounded, Sizes;
    StepPosts(s, c);
    StepSound(s, c);
    StepAdmitted(s, c);
    BookingSizes(s, c);
    SoberPostIff(LedgerOf(s), BookingOf(s, c));
  }

  lemma {:induction false} StaysSoberFrom(s: State, cs: seq<Command>)
    requires Grounded(s) && Sizes(s) && AllSober(LedgerOf(s)) && forall c :: c in cs ==> Sane(c)
    ensures StaysSober(s, cs) <==> NeverOverdraws(s, cs)
    decreases |cs|
  {
    hide Step, Sane, AllSober, OverdrawsAt, Grounded, Sizes;
    if cs != [] {
      var c := cs[0];
      assert Sane(c);
      GroundedStep(s, c);
      SoberStepIff(s, c);
      if !OverdrawsAt(s, c) {
        SizesStep(s, c);
        StaysSoberFrom(Step(s, c).next, cs[1..]);
      }
    }
  }

  /** Exactly when every backend is within its bounds at every point of a run, migrations and whatever is
      done to volumes in flight included: when no deletion and no completing migration overdraws one. */
  lemma {:induction false} BoundsRunIff(cs: seq<Command>)
    requires forall c :: c in cs ==> Sane(c)
    ensures StaysSober(EMPTY, cs) <==> NeverOverdraws(EMPTY, cs)
  {
    StaysSoberFrom(EMPTY, cs);
  }

  // ---- Runs that leave volumes in flight alone -------------------------------------------------------

  /** The step completes a migration onto a backend that no longer has room for it. */
  ghost predicate Crowds(s: State, c: Command)
  {
    var l, k := LedgerOf(s), BookingOf(s, c);
    k.Move? && k.source != k.dest && k.dest in l.accounts && !Holds(l.accounts[k.dest], k.size, k.thin)
  }

  /** With exact counters the volumes on a backend cover what is taken off for any one of them. */
  lemma {:induction false} ExactCovers(l: Ledger, id: string)
    requires Exact(l) && id in l.entries && l.entries[id].backend in l.accounts
    requires forall e :: e in l.entries ==> l.entries[e].size >= 0
    ensures Covers(l.accounts[l.entries[id].backend], l.entries[id].size, l.entries[id].thin)
  {
    var e := l.entries[id];
    assert ExactOn(l, e.backend);
    var part := if e.thin then ThinOn(e.backend) else ThickOn(e.backend);
    ThinSplit(l.entries, e.backend);
    TotalSplit(l.entries, id, part);
    TotalNonNegative(l.entries - {id}, part);
  }

  lemma {:induction false} OverdrawsOnlyCrowding(s: State, c: Command)
    requires Grounded(s) && Sizes(s) && Captured(s) && Exact(LedgerOf(s)) && Undisturbed(s, c)
    ensures OverdrawsAt(s, c) <==> Crowds(s, c)
  {
    hide Covers, Holds, Exact, Step;
    StepSound(s, c);
    BookingFair(s, c);
    var l, k := LedgerOf(s), BookingOf(s, c);
    if k.Remove? {
      ExactCovers(l, k.id);
    } else if k.Move? {
      assert Describes(s.migrationWorkers[c.worker], l.entries);
      ExactCovers(l, k.id);
    }
  }

  ghost predicate NeverCrowds(s: State, cs: seq<Command>)
    decreases |cs|
  {
    cs == [] || (!Crowds(s, cs[0]) && NeverCrowds(Step(s, cs[0]).next, cs[1..]))
  }

  lemma {:induction false} NeverCrowdsFrom(s: State, cs: seq<Command>)
    requires Grounded(s) && Sizes(s) && Captured(s) && Exact(LedgerOf(s)) && UndisturbedRun(s, cs)
    requires forall c :: c in cs ==> Sane(c)
    ensures NeverOverdraws(s, cs) <==> NeverCrowds(s, cs)
    decreases |cs|
  {
    hide Step, Sane, OverdrawsAt, Crowds, Grounded, Sizes, Captured, Exact, Undisturbed, Post, Check;
    if cs != [] {
      var c := cs[0];
      assert Sane(c);
      OverdrawsOnlyCrowding(s, c);
      GroundedStep(s, c);
      SizesStep(s, c);
      CapturedStep(s, c);
      StepPosts(s, c);
      StepSound(s, c);
      BookingFair(s, c);
      ExactPost(LedgerOf(s), BookingOf(s, c));
      NeverCrowdsFrom(Step(s, c).next, cs[1..]);
    }
  }

  /** With volumes in flight left alone, every backend is within its bounds at every point of a run if and
      only if every migration that completes still finds room on its destination. */
  lemma {:induction false} MigrationBoundsIff(cs: seq<Command>)
    requires UndisturbedRun(EMPTY, cs) && forall c :: c in cs ==> Sane(c)
    ensures StaysSober(EMPTY, cs) <==> NeverCrowds(EMPTY, cs)
  {
    BoundsRunIff(cs);
    NeverCrowdsFrom(EMPTY, cs);
  }
}
