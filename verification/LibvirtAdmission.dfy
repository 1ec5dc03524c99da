/** Admission control over whole runs: active domains stay within what the host offers. */
module LibvirtAdmission {
  import opened Basics
  import opened Sums
  import opened LibvirtModel

  /** Active vCPUs and whole megabytes are within the available amounts. */
  ghost predicate Within(h: Host)
  {
    UsedVCPUs(h) <= AvailableVCPUs(h) && UsedMB(h) <= AvailableMB(h)
  }

  predicate Demand(d: Domain)
  {
    d.vcpus >= 0 && d.memoryKiB >= 0
  }

  /** No domain asks for a negative amount, and a reserved placeholder still holds its reservation. */
  predicate Orderly(h: Host)
  {
    forall u :: u in h.domains ==> Demand(h.domains[u]) && (h.domains[u].migration == Prepared ==> Active(h.domains[u]))
  }

  ghost predicate Admitted(s: State)
  {
    forall host :: host in s.hosts ==> Within(s.hosts[host]) && Orderly(s.hosts[host])
  }

  /** The caller keeps the overcommit ratios, registers empty hosts, defines domains that ask for
      something and are not in migration, and does not stop a reserved placeholder. */
  ghost predicate Careful(s: State, c: Command)
  {
    match c
    case AddHost(_, h) =>
      h.domains == map[] && AvailableVCPUs(WithDefaults(h)) >= 0 && AvailableMB(WithDefaults(h)) >= 0
    case SetRatios(_, _, _) => false
    case Define(_, d) => Demand(d) && d.migration != Prepared
    case Prepare(_, d) => Demand(d)
    case Destroy(host, uuid) => !IsPrepared(s, host, uuid)
    case ShutDown(host, uuid) => !IsPrepared(s, host, uuid)
    case _ => true
  }

  predicate IsPrepared(s: State, host: string, uuid: string)
  {
    host in s.hosts && uuid in s.hosts[host].domains && s.hosts[host].domains[uuid].migration == Prepared
  }

  ghost predicate CarefulRun(s: State, cs: seq<Command>)
  {
    forall k :: 0 <= k < |cs| ==> Careful(Run(s, cs[..k]), cs[k])
  }

  lemma PutUsage(h: Host, uuid: string, d: Domain)
    ensures
      var h' := PutDomain(h, uuid, Some(d));
      && UsedVCPUs(h') == UsedVCPUs(h) - (if uuid in h.domains then ActiveVCPUs(h.domains[uuid]) else 0) + ActiveVCPUs(d)
      && UsedMB(h') == UsedMB(h) - (if uuid in h.domains then ActiveMB(h.domains[uuid]) else 0) + ActiveMB(d)
  {
    TotalPut(h.domains, uuid, d, ActiveVCPUs);
    TotalPut(h.domains, uuid, d, ActiveMB);
  }

  lemma DropUsage(h: Host, uuid: string)
    requires uuid in h.domains
    ensures
      var h' := PutDomain(h, uuid, None);
      && UsedVCPUs(h') == UsedVCPUs(h) - ActiveVCPUs(h.domains[uuid])
      && UsedMB(h') == UsedMB(h) - ActiveMB(h.domains[uuid])
  {
    TotalSplit(h.domains, uuid, ActiveVCPUs);
    TotalSplit(h.domains, uuid, ActiveMB);
  }

  /** Replacing a domain keeps the host within its bounds if the newcomer weighs no more than what it
      replaces, or was found to fit. */
  lemma {:induction false} PutWithin(h: Host, uuid: string, d: Domain)
    requires Within(h) && Orderly(h) && Demand(d) && (d.migration == Prepared ==> Active(d))
    requires
      || !Active(d)
      || (uuid in h.domains && Active(h.domains[uuid]) &&
          d.vcpus == h.domains[uuid].vcpus && d.memoryKiB == h.domains[uuid].memoryKiB)
      || Room(h, d)
    ensures Within(PutDomain(h, uuid, Some(d))) && Orderly(PutDomain(h, uuid, Some(d)))
  {
    PutUsage(h, uuid, d);
    var h' := PutDomain(h, uuid, Some(d));
    assert AvailableVCPUs(h') == AvailableVCPUs(h) && AvailableMB(h') == AvailableMB(h);
    assert uuid in h.domains ==> ActiveVCPUs(h.domains[uuid]) >= 0 && ActiveMB(h.domains[uuid]) >= 0;
  }

  lemma {:induction false} DropWithin(h: Host, uuid: string)
    requires Within(h) && Orderly(h) && uuid in h.domains
    ensures Within(PutDomain(h, uuid, None)) && Orderly(PutDomain(h, uuid, None))
  {
    hide UsedVCPUs, UsedMB, ScaledVCPUs, ScaledMB;
    DropUsage(h, uuid);
    assert Demand(h.domains[uuid]);
  }

  lemma {:induction false} DomainStep(h: Host, c: Command, nextId: int)
    requires Within(h) && Orderly(h) && OnDomain(c) && c.uuid in h.domains
    requires DomainCheck(h, h.domains[c.uuid], c).None?
    requires c.Destroy? || c.ShutDown? ==> h.domains[c.uuid].migration != Prepared
    ensures Within(HostAfter(h, c, nextId)) && Orderly(HostAfter(h, c, nextId))
  {
    hide Within, UsedVCPUs, UsedMB, ScaledVCPUs, ScaledMB;
    var d := h.domains[c.uuid];
    var d' := DomainAfter(d, c, nextId);
    assert Demand(d) && (d.migration == Prepared ==> Active(d));
    if d'.Some? {
      PutWithin(h, c.uuid, d'.value);
    } else {
      DropWithin(h, c.uuid);
    }
  }

  lemma {:induction false} HostStep(s: State, c: Command)
    requires Admitted(s) && Careful(s, c) && Check(s, c).None? && !c.AddHost? && !c.RemoveHost?
    ensures
      var h' := HostAfter(s.hosts[c.host], c, s.nextDomainId);
      Within(h') && Orderly(h')
  {
    var h := s.hosts[c.host];
    if OnDomain(c) {
      DomainStep(h, c, s.nextDomainId);
    } else if c.Define? {
      PutWithin(h, c.d.uuid, c.d.(state := Shutoff, id := -1));
    } else if c.Prepare? {
      PutWithin(h, c.d.uuid, Placeholder(c.d));
    }
  }

  lemma {:induction false} EmptyHostAdmitted(s: State, c: Command)
    requires c.AddHost? && Careful(s, c)
    ensures Within(WithDefaults(c.h)) && Orderly(WithDefaults(c.h))
  {
  }

  lemma {:induction false} AdmittedStep(s: State, c: Command)
    requires Admitted(s) && Careful(s, c)
    ensures Admitted(Step(s, c).next)
  {
    hide Within, Orderly, HostAfter, Careful, DomainCheck, Room, WithDefaults;
    if Check(s, c).None? {
      if c.AddHost? {
        EmptyHostAdmitted(s, c);
      } else if !c.RemoveHost? {
        HostStep(s, c);
      }
    }
  }

  lemma {:induction false} AdmittedRun(s: State, cs: seq<Command>)
    requires Admitted(s) && CarefulRun(s, cs)
    ensures Admitted(Run(s, cs))
    decreases |cs|
  {
    if cs != [] {
      var init := cs[..|cs| - 1];
      forall k | 0 <= k < |init|
        ensures Careful(Run(s, init[..k]), init[k])
      {
        assert init[..k] == cs[..k];
        assert Careful(Run(s, cs[..k]), cs[k]);
      }
      AdmittedRun(s, init);
      assert Careful(Run(s, cs[..|cs| - 1]), cs[|cs| - 1]);
      AdmittedStep(Run(s, init), cs[|cs| - 1]);
    }
  }

  // ---- What whole megabytes mean in KiB -----------------------------------------------------------

  function ActiveKiB(d: Domain): int { if Active(d) then d.memoryKiB else 0 }

  function ActiveOne(d: Domain): int { if Active(d) then 1 else 0 }

  lemma {:induction false} KiBOfMB(domains: map<string, Domain>)
    ensures Total(domains, ActiveKiB) <= 1024 * Total(domains, ActiveMB) + 1023 * Total(domains, ActiveOne)
    decreases |domains|
  {
    if domains != map[] {
      var u :| u in domains;
      TotalSplit(domains, u, ActiveKiB);
      TotalSplit(domains, u, ActiveMB);
      TotalSplit(domains, u, ActiveOne);
      assert (domains - {u}).Keys == domains.Keys - {u};
      KiBOfMB(domains - {u});
    }
  }

  /** Admission bound: in every careful run each host's active vCPUs and megabytes are within what it
      offers; in KiB that is exact up to the part of a megabyte each active domain may hide. */
  lemma {:induction false} AdmissionBound(cs: seq<Command>, host: string)
    requires CarefulRun(EMPTY, cs) && host in Run(EMPTY, cs).hosts
    ensures
      var h := Run(EMPTY, cs).hosts[host];
      && UsedVCPUs(h) <= AvailableVCPUs(h)
      && UsedMB(h) <= AvailableMB(h)
      && Total(h.domains, ActiveKiB) <= 1024 * AvailableMB(h) + 1023 * Total(h.domains, ActiveOne)
  {
    AdmittedRun(EMPTY, cs);
    var h := Run(EMPTY, cs).hosts[host];
    assert Within(h);
    KiBOfMB(h.domains);
  }

  /** MigrateFinish checks no resources: it keeps a host within its bounds if and only if the placeholder
      still held its reservation, or would fit if it were started now. */
  lemma {:induction false} FinishWithinIff(h: Host, uuid: string, nextId: int)
    requires Within(h) && uuid in h.domains && h.domains[uuid].migration == Prepared
    ensures Within(HostAfter(h, Finish("", uuid), nextId)) <==> Active(h.domains[uuid]) || Room(h, h.domains[uuid])
  {
    PutUsage(h, uuid, DomainAfter(h.domains[uuid], Finish("", uuid), nextId).value);
  }
}
