/** Admission in terms of the hardware: what a host has, times its overcommit ratios, against what its running and
    paused domains ask for. */
module LibvirtHardware {
  import opened Basics
  import opened Sums
  import opened LibvirtModel
  import opened LibvirtAdmission

  /** The vCPUs of the running and paused domains. */
  ghost function VCPUsInUse(h: Host): int
  {
    Total(h.domains, (d: Domain) => if d.state == Running || d.state == Paused then d.vcpus else 0)
  }

  /** The whole megabytes of the running and paused domains. */
  ghost function MegabytesInUse(h: Host): int
  {
    Total(h.domains, (d: Domain) => if d.state == Running || d.state == Paused then d.memoryKiB / 1024 else 0)
  }

  /** Counts and ratios are not negative. */
  predicate Equipped(h: Host)
  {
    && h.hardware.sockets >= 0 && h.hardware.coresPerSocket >= 0 && h.hardware.threadsPerCore >= 0
    && h.hardware.memoryMB >= 0 && h.cpuRatio >= 0.0 && h.memRatio >= 0.0
  }

  /** And no domain asks for a negative amount. */
  predicate Physical(h: Host)
  {
    Equipped(h) && forall u :: u in h.domains ==> Demand(h.domains[u])
  }

  /** This many vCPUs and megabytes are within the hardware times the overcommit ratios. */
  predicate WithinHardware(h: Host, vcpus: int, mb: int)
  {
    && vcpus as real <= (h.hardware.sockets * h.hardware.coresPerSocket * h.hardware.threadsPerCore) as real * h.cpuRatio
    && mb as real <= h.hardware.memoryMB as real * h.memRatio
  }

  lemma {:induction false} TotalSame<K, V>(m: map<K, V>, f: V -> int, g: V -> int)
    requires forall k :: k in m ==> f(m[k]) == g(m[k])
    ensures Total(m, f) == Total(m, g)
    decreases |m|
  {
    if m != map[] {
      var k :| k in m;
      TotalSplit(m, k, f);
      TotalSplit(m, k, g);
      assert (m - {k}).Keys == m.Keys - {k};
      TotalSame(m - {k}, f, g);
    }
  }

  /** KiB cut to whole megabytes. */
  lemma MegabytesCut(kib: int)
    ensures kib >= 0 ==> WholeMB(kib) == kib / 1024
    ensures kib < 0 ==> 1024 * WholeMB(kib) - 1024 < kib <= 1024 * WholeMB(kib)
  {
  }

  lemma {:induction false} UseIs(h: Host)
    requires forall u :: u in h.domains ==> Demand(h.domains[u])
    ensures UsedVCPUs(h) == VCPUsInUse(h) && UsedMB(h) == MegabytesInUse(h)
  {
    var vcpus := (d: Domain) => if d.state == Running || d.state == Paused then d.vcpus else 0;
    var mb := (d: Domain) => if d.state == Running || d.state == Paused then d.memoryKiB / 1024 else 0;
    forall u | u in h.domains
      ensures ActiveVCPUs(h.domains[u]) == vcpus(h.domains[u]) && ActiveMB(h.domains[u]) == mb(h.domains[u])
    {
      assert Demand(h.domains[u]);
      MegabytesCut(h.domains[u].memoryKiB);
    }
    TotalSame(h.domains, ActiveVCPUs, vcpus);
    TotalSame(h.domains, ActiveMB, mb);
  }

  /** An integer is within a product cut to an integer exactly if it is within the product. */
  lemma {:induction false} WithinCut(n: int, x: real)
    requires x >= 0.0
    ensures n <= Trunc(x) <==> n as real <= x
  {
    TruncCuts(x);
  }

  lemma ProductNotNegative(n: int, ratio: real)
    requires n >= 0 && ratio >= 0.0
    ensures n as real * ratio >= 0.0
  {
  }

  lemma ThreadsNotNegative(a: int, b: int, c: int)
    requires a >= 0 && b >= 0 && c >= 0
    ensures a * b * c >= 0
  {
  }

  lemma {:induction false} OfferIs(h: Host, vcpus: int, mb: int)
    requires Equipped(h)
    ensures vcpus <= AvailableVCPUs(h) && mb <= AvailableMB(h) <==> WithinHardware(h, vcpus, mb)
  {
    var hw := h.hardware;
    ThreadsNotNegative(hw.sockets, hw.coresPerSocket, hw.threadsPerCore);
    ProductNotNegative(hw.sockets * hw.coresPerSocket * hw.threadsPerCore, h.cpuRatio);
    ProductNotNegative(hw.memoryMB, h.memRatio);
    WithinCut(vcpus, (hw.sockets * hw.coresPerSocket * hw.threadsPerCore) as real * h.cpuRatio);
    WithinCut(mb, hw.memoryMB as real * h.memRatio);
    hide Trunc;
  }

  /** In every careful run each host's running and paused domains are within its hardware times its ratios. */
  lemma {:induction false} HardwareBound(cs: seq<Command>, host: string)
    requires CarefulRun(EMPTY, cs) && host in Run(EMPTY, cs).hosts && Equipped(Run(EMPTY, cs).hosts[host])
    ensures
      var h := Run(EMPTY, cs).hosts[host];
      && VCPUsInUse(h) as real <= (h.hardware.sockets * h.hardware.coresPerSocket * h.hardware.threadsPerCore) as real * h.cpuRatio
      && MegabytesInUse(h) as real <= h.hardware.memoryMB as real * h.memRatio
  {
    hide Run, UsedVCPUs, UsedMB, VCPUsInUse, MegabytesInUse, AvailableVCPUs, AvailableMB, CarefulRun;
    var h := Run(EMPTY, cs).hosts[host];
    AdmissionBound(cs, host);
    AdmittedRun(EMPTY, cs);
    hide Within;
    assert Orderly(h);
    UseIs(h);
    OfferIs(h, UsedVCPUs(h), UsedMB(h));
  }

  lemma {:induction false} RoomIs(h: Host, d: Domain)
    requires Physical(h) && Demand(d)
    ensures Room(h, d) <==> WithinHardware(h, VCPUsInUse(h) + d.vcpus, MegabytesInUse(h) + d.memoryKiB / 1024)
  {
    UseIs(h);
    OfferIs(h, UsedVCPUs(h) + d.vcpus, UsedMB(h) + d.memoryKiB / 1024);
    hide UsedVCPUs, UsedMB, VCPUsInUse, MegabytesInUse, AvailableVCPUs, AvailableMB, WithinHardware;
  }

  /** A start succeeds if and only if the domain is there, shut off, and fits beside the running and paused ones;
      it is denied exactly for want of room. */
  lemma {:induction false} StartIff(s: State, host: string, uuid: string)
    requires host in s.hosts ==> Physical(s.hosts[host])
    ensures Step(s, Start(host, uuid)).err == None <==>
            && host in s.hosts && uuid in s.hosts[host].domains
            && var h, d := s.hosts[host], s.hosts[host].domains[uuid];
               d.state == Shutoff && WithinHardware(h, VCPUsInUse(h) + d.vcpus, MegabytesInUse(h) + d.memoryKiB / 1024)
    ensures Step(s, Start(host, uuid)).err == Some(OperationDenied) <==>
            && host in s.hosts && uuid in s.hosts[host].domains
            && var h, d := s.hosts[host], s.hosts[host].domains[uuid];
               d.state == Shutoff && !WithinHardware(h, VCPUsInUse(h) + d.vcpus, MegabytesInUse(h) + d.memoryKiB / 1024)
  {
    hide Room, WithinHardware, VCPUsInUse, MegabytesInUse, Apply;
    if host in s.hosts && uuid in s.hosts[host].domains {
      assert Demand(s.hosts[host].domains[uuid]);
      RoomIs(s.hosts[host], s.hosts[host].domains[uuid]);
    }
  }

  /** A reservation succeeds if and only if the host is online, does not have the domain, and has room for it. */
  lemma {:induction false} PrepareIff(s: State, host: string, d: Domain)
    requires (host in s.hosts ==> Physical(s.hosts[host])) && Demand(d)
    ensures Step(s, Prepare(host, d)).err == None <==>
            && host in s.hosts && s.hosts[host].state == "online" && d.uuid !in s.hosts[host].domains
            && var h := s.hosts[host];
               WithinHardware(h, VCPUsInUse(h) + d.vcpus, MegabytesInUse(h) + d.memoryKiB / 1024)
  {
    hide Room, WithinHardware, VCPUsInUse, MegabytesInUse, Apply;
    if host in s.hosts {
      RoomIs(s.hosts[host], d);
    }
  }

  /** A host that offers 1536 megabytes does not start a domain of 2048, whatever its vCPU ratio. */
  lemma {:induction false} TwoGigabytesDenied(d: Domain, cpuRatio: real)
    requires d.state == Shutoff && d.vcpus >= 0 && d.memoryKiB == 2 * 1024 * 1024 && cpuRatio >= 0.0
    ensures
      var h := Host(16509, Hardware(2, 8, 2, 1024), cpuRatio, 1.5, "online", map[d.uuid := d]);
      Step(State(map["h" := h], map[16509 := "h"], 1), Start("h", d.uuid)).err == Some(OperationDenied)
  {
    var h := Host(16509, Hardware(2, 8, 2, 1024), cpuRatio, 1.5, "online", map[d.uuid := d]);
    TotalZero(h.domains, (d: Domain) => if d.state == Running || d.state == Paused then d.memoryKiB / 1024 else 0);
    StartIff(State(map["h" := h], map[16509 := "h"], 1), "h", d.uuid);
    hide Step;
    assert 1024 as real * 1.5 == 1536.0;
  }
}
