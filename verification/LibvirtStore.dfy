/** The libvirt host store: the calls that change hosts and domains in place, each proved to take exactly
    one step of the model and to keep admission control's promise. */
module LibvirtStore {
  import opened Basics
  import opened Sums
  import opened LibvirtModel
  import opened LibvirtAdmission

  /** The accumulation loop over a host's domains, in whatever order the map yields them. */
  method Usage(domains: map<string, Domain>) returns (vcpus: int, mb: int)
    ensures vcpus == Total(domains, ActiveVCPUs)
    ensures mb == Total(domains, ActiveMB)
  {
    vcpus, mb := 0, 0;
    var rest := domains;
    while rest != map[]
      invariant vcpus + Total(rest, ActiveVCPUs) == Total(domains, ActiveVCPUs)
      invariant mb + Total(rest, ActiveMB) == Total(domains, ActiveMB)
      decreases |rest|
    {
      var u :| u in rest;
      TotalSplit(rest, u, ActiveVCPUs);
      TotalSplit(rest, u, ActiveMB);
      var d := rest[u];
      if d.state == Running || d.state == Paused {
        vcpus := vcpus + d.vcpus;
        mb := mb + WholeMB(d.memoryKiB);
      }
      assert (rest - {u}).Keys == rest.Keys - {u};
      rest := rest - {u};
    }
  }

  /** Whether one more active domain fits on the host. */
  method CanAllocate(h: Host, d: Domain) returns (ok: bool)
    ensures ok <==> Room(h, d)
  {
    var vcpus, mb := Usage(h.domains);
    if vcpus + d.vcpus > AvailableVCPUs(h) {
      return false;
    }
    return mb + WholeMB(d.memoryKiB) <= AvailableMB(h);
  }

  class Store {
    var hosts: map<string, Host>
    var ports: map<int, string>
    var nextDomainId: int

    ghost function View(): State
      reads this
    {
      State(hosts, ports, nextDomainId)
    }

    /** Active domains are within what each host offers, and reserved placeholders hold their reservation. */
    ghost predicate Valid()
      reads this
    {
      Admitted(View())
    }

    constructor ()
      ensures Valid() && View() == EMPTY
    {
      hosts, ports, nextDomainId := map[], map[], 1;
    }

    method AddHost(host: string, h: Host) returns (err: Option<Error>)
      modifies this
      ensures Outcome(View(), err) == Step(old(View()), Command.AddHost(host, h))
      ensures old(Valid()) && Careful(old(View()), Command.AddHost(host, h)) ==> Valid()
    {
      hide Admitted, Careful;
      if Valid() && Careful(View(), Command.AddHost(host, h)) {
        AdmittedStep(View(), Command.AddHost(host, h));
      }
      if host in hosts {
        return Some(HostExists);
      }
      if h.port in ports {
        return Some(PortInUse);
      }
      var stored := h;
      if stored.state == "" {
        stored := stored.(state := "online");
      }
      if stored.cpuRatio == 0.0 {
        stored := stored.(cpuRatio := 1.0);
      }
      if stored.memRatio == 0.0 {
        stored := stored.(memRatio := 1.0);
      }
      hosts := hosts[host := stored];
      ports := ports[h.port := host];
      return None;
    }

    method RemoveHost(host: string) returns (err: Option<Error>)
      modifies this
      ensures Outcome(View(), err) == Step(old(View()), Command.RemoveHost(host))
      ensures old(Valid()) && Careful(old(View()), Command.RemoveHost(host)) ==> Valid()
    {
      hide Admitted, Careful;
      if Valid() && Careful(View(), Command.RemoveHost(host)) {
        AdmittedStep(View(), Command.RemoveHost(host));
      }
      if host !in hosts {
        return Some(HostNotFound);
      }
      ports := ports - {hosts[host].port};
      hosts := hosts - {host};
      return None;
    }

    /** A domain written back into, or removed from, its host. */
    method Write(host: string, uuid: string, d: Option<Domain>)
      requires host in hosts
      modifies this`hosts
      ensures hosts == old(hosts)[host := PutDomain(old(hosts)[host], uuid, d)]
    {
      var h := hosts[host];
      if d.Some? {
        h := h.(domains := h.domains[uuid := d.value]);
      } else {
        h := h.(domains := h.domains - {uuid});
      }
      hosts := hosts[host := h];
    }

    method DefineDomain(host: string, d: Domain) returns (err: Option<Error>)
      modifies this
      ensures Outcome(View(), err) == Step(old(View()), Define(host, d))
      ensures old(Valid()) && Careful(old(View()), Define(host, d)) ==> Valid()
    {
      hide Admitted, Careful;
      if Valid() && Careful(View(), Define(host, d)) {
        AdmittedStep(View(), Define(host, d));
      }
      if host !in hosts {
        return Some(HostNotFound);
      }
      Write(host, d.uuid, Some(d.(state := Shutoff, id := -1)));
      return None;
    }

    method StartDomain(host: string, uuid: string) returns (err: Option<Error>)
      modifies this
      ensures Outcome(View(), err) == Step(old(View()), Start(host, uuid))
      ensures old(Valid()) && Careful(old(View()), Start(host, uuid)) ==> Valid()
    {
      hide Admitted, Careful;
      if Valid() && Careful(View(), Start(host, uuid)) {
        AdmittedStep(View(), Start(host, uuid));
      }
      if host !in hosts {
        return Some(HostNotFound);
      }
      if uuid !in hosts[host].domains {
        return Some(NoDomain);
      }
      var d := hosts[host].domains[uuid];
      if d.state != Shutoff {
        return Some(OperationInvalid);
      }
      var ok := CanAllocate(hosts[host], d);
      if !ok {
        return Some(OperationDenied);
      }
      Write(host, uuid, Some(d.(state := Running, id := nextDomainId)));
      nextDomainId := nextDomainId + 1;
      return None;
    }

    method DestroyDomain(host: string, uuid: string) returns (err: Option<Error>)
      modifies this
      ensures Outcome(View(), err) == Step(old(View()), Destroy(host, uuid))
      ensures old(Valid()) && Careful(old(View()), Destroy(host, uuid)) ==> Valid()
    {
      hide Admitted, Careful;
      if Valid() && Careful(View(), Destroy(host, uuid)) {
        AdmittedStep(View(), Destroy(host, uuid));
      }
      if host !in hosts {
        return Some(HostNotFound);
      }
      if uuid !in hosts[host].domains {
        return Some(NoDomain);
      }
      var d := hosts[host].domains[uuid];
      if d.state != Running && d.state != Paused {
        return Some(OperationInvalid);
      }
      Write(host, uuid, Some(d.(state := Shutoff, id := -1)));
      return None;
    }

    method ShutdownDomain(host: string, uuid: string) returns (err: Option<Error>)
      modifies this
      ensures Outcome(View(), err) == Step(old(View()), ShutDown(host, uuid))
      ensures old(Valid()) && Careful(old(View()), ShutDown(host, uuid)) ==> Valid()
    {
      hide Admitted, Careful;
      if Valid() && Careful(View(), ShutDown(host, uuid)) {
        AdmittedStep(View(), ShutDown(host, uuid));
      }
      if host !in hosts {
        return Some(HostNotFound);
      }
      if uuid !in hosts[host].domains {
        return Some(NoDomain);
      }
      var d := hosts[host].domains[uuid];
      if d.state != Running {
        return Some(OperationInvalid);
      }
      Write(host, uuid, Some(d.(state := Shutoff, id := -1)));
      return None;
    }

    method SuspendDomain(host: string, uuid: string) returns (err: Option<Error>)
      modifies this
      ensures Outcome(View(), err) == Step(old(View()), Suspend(host, uuid))
      ensures old(Valid()) && Careful(old(View()), Suspend(host, uuid)) ==> Valid()
    {
      hide Admitted, Careful;
      if Valid() && Careful(View(), Suspend(host, uuid)) {
        AdmittedStep(View(), Suspend(host, uuid));
      }
      if host !in hosts {
        return Some(HostNotFound);
      }
      if uuid !in hosts[host].domains {
        return Some(NoDomain);
      }
      var d := hosts[host].domains[uuid];
      if d.state != Running {
        return Some(OperationInvalid);
      }
      Write(host, uuid, Some(d.(state := Paused)));
      return None;
    }

    method ResumeDomain(host: string, uuid: string) returns (err: Option<Error>)
      modifies this
      ensures Outcome(View(), err) == Step(old(View()), Resume(host, uuid))
      ensures old(Valid()) && Careful(old(View()), Resume(host, uuid)) ==> Valid()
    {
      hide Admitted, Careful;
      if Valid() && Careful(View(), Resume(host, uuid)) {
        AdmittedStep(View(), Resume(host, uuid));
      }
      if host !in hosts {
        return Some(HostNotFound);
      }
      if uuid !in hosts[host].domains {
        return Some(NoDomain);
      }
      var d := hosts[host].domains[uuid];
      if d.state != Paused {
        return Some(OperationInvalid);
      }
      Write(host, uuid, Some(d.(state := Running)));
      return None;
    }

    method UndefineDomain(host: string, uuid: string) returns (err: Option<Error>)
      modifies this
      ensures Outcome(View(), err) == Step(old(View()), Undefine(host, uuid))
      ensures old(Valid()) && Careful(old(View()), Undefine(host, uuid)) ==> Valid()
    {
      hide Admitted, Careful;
      if Valid() && Careful(View(), Undefine(host, uuid)) {
        AdmittedStep(View(), Undefine(host, uuid));
      }
      if host !in hosts {
        return Some(HostNotFound);
      }
      if uuid !in hosts[host].domains {
        return Some(NoDomain);
      }
      if hosts[host].domains[uuid].state != Shutoff {
        return Some(OperationInvalid);
      }
      Write(host, uuid, None);
      return None;
    }

    method MigratePrepare(host: string, d: Domain) returns (err: Option<Error>)
      modifies this
      ensures Outcome(View(), err) == Step(old(View()), Prepare(host, d))
      ensures old(Valid()) && Careful(old(View()), Prepare(host, d)) ==> Valid()
    {
      hide Admitted, Careful;
      if Valid() && Careful(View(), Prepare(host, d)) {
        AdmittedStep(View(), Prepare(host, d));
      }
      if host !in hosts {
        return Some(HostNotFound);
      }
      if hosts[host].state != "online" {
        return Some(OperationDenied);
      }
      if d.uuid in hosts[host].domains {
        return Some(OperationInvalid);
      }
      var ok := CanAllocate(hosts[host], d);
      if !ok {
        return Some(OperationDenied);
      }
      var placeholder := Domain(d.name, d.uuid, -1, Paused, d.vcpus, d.memoryKiB, d.xml, d.interfaceIds, Prepared, d.uuid);
      Write(host, d.uuid, Some(placeholder));
      return None;
    }

    method MigratePerform(host: string, uuid: string) returns (err: Option<Error>)
      modifies this
      ensures Outcome(View(), err) == Step(old(View()), Perform(host, uuid))
      ensures old(Valid()) && Careful(old(View()), Perform(host, uuid)) ==> Valid()
    {
      hide Admitted, Careful;
      if Valid() && Careful(View(), Perform(host, uuid)) {
        AdmittedStep(View(), Perform(host, uuid));
      }
      if host !in hosts {
        return Some(HostNotFound);
      }
      if uuid !in hosts[host].domains {
        return Some(NoDomain);
      }
      var d := hosts[host].domains[uuid];
      if d.state != Running {
        return Some(OperationInvalid);
      }
      if d.migration != NoMigration {
        return Some(MigrationInProgress);
      }
      Write(host, uuid, Some(d.(migration := Performing, cookie := uuid)));
      return None;
    }

    method MigrateFinish(host: string, uuid: string) returns (err: Option<Error>)
      modifies this
      ensures Outcome(View(), err) == Step(old(View()), Finish(host, uuid))
      ensures old(Valid()) && Careful(old(View()), Finish(host, uuid)) ==> Valid()
    {
      hide Admitted, Careful;
      if Valid() && Careful(View(), Finish(host, uuid)) {
        AdmittedStep(View(), Finish(host, uuid));
      }
      if host !in hosts {
        return Some(HostNotFound);
      }
      if uuid !in hosts[host].domains {
        return Some(NoDomain);
      }
      var d := hosts[host].domains[uuid];
      if d.migration != Prepared {
        return Some(OperationInvalid);
      }
      Write(host, uuid, Some(d.(state := Running, id := nextDomainId, migration := NoMigration, cookie := "")));
      nextDomainId := nextDomainId + 1;
      return None;
    }

    method MigrateConfirm(host: string, uuid: string) returns (err: Option<Error>)
      modifies this
      ensures Outcome(View(), err) == Step(old(View()), Confirm(host, uuid))
      ensures old(Valid()) && Careful(old(View()), Confirm(host, uuid)) ==> Valid()
    {
      hide Admitted, Careful;
      if Valid() && Careful(View(), Confirm(host, uuid)) {
        AdmittedStep(View(), Confirm(host, uuid));
      }
      if host !in hosts {
        return Some(HostNotFound);
      }
      if uuid !in hosts[host].domains {
        return Some(NoDomain);
      }
      if hosts[host].domains[uuid].migration != Performing {
        return Some(OperationInvalid);
      }
      Write(host, uuid, None);
      return None;
    }
  }
}
