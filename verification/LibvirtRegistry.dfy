/** What each call does to a domain, and what the host and domain tables keep over whole runs. */
module LibvirtRegistry {
  import opened Basics
  import opened LibvirtModel

  // ---- Calls ------------------------------------------------------------------------------------------

  /** A refused call changes nothing. */
  lemma {:induction false} RefusedChangesNothing(s: State, c: Command)
    requires Step(s, c).err != None
    ensures Step(s, c).next == s
  {
    hide Check, Apply;
  }

  predicate HasDomain(s: State, host: string, uuid: string)
  {
    host in s.hosts && uuid in s.hosts[host].domains
  }

  /** Which lifecycle calls a domain takes, by its state. */
  lemma {:induction false} LifecycleIff(s: State, host: string, uuid: string)
    requires HasDomain(s, host, uuid)
    ensures
      var d := s.hosts[host].domains[uuid];
      && (Step(s, Destroy(host, uuid)).err == None <==> d.state == Running || d.state == Paused)
      && (Step(s, ShutDown(host, uuid)).err == None <==> d.state == Running)
      && (Step(s, Suspend(host, uuid)).err == None <==> d.state == Running)
      && (Step(s, Resume(host, uuid)).err == None <==> d.state == Paused)
      && (Step(s, Undefine(host, uuid)).err == None <==> d.state == Shutoff)
  {
    hide Apply, Room;
  }

  /** Which calls of a migration a domain takes. */
  lemma {:induction false} PhasesIff(s: State, host: string, uuid: string)
    requires HasDomain(s, host, uuid)
    ensures
      var d := s.hosts[host].domains[uuid];
      && (Step(s, Perform(host, uuid)).err == None <==> d.state == Running && d.migration == NoMigration)
      && (Step(s, Finish(host, uuid)).err == None <==> d.migration == Prepared)
      && (Step(s, Confirm(host, uuid)).err == None <==> d.migration == Performing)
  {
    hide Apply, Room;
  }

  /** What errors a call about a domain answers: host before domain before its state, and only a start is denied
      and only a Perform finds a migration in progress. */
  lemma {:induction false} LifecycleErrors(s: State, c: Command)
    requires OnDomain(c)
    ensures c.host !in s.hosts ==> Step(s, c).err == Some(HostNotFound)
    ensures c.host in s.hosts && c.uuid !in s.hosts[c.host].domains ==> Step(s, c).err == Some(NoDomain)
    ensures HasDomain(s, c.host, c.uuid) ==>
              var d, err := s.hosts[c.host].domains[c.uuid], Step(s, c).err;
              && (c.Start? ==> (err == Some(OperationInvalid) <==> d.state != Shutoff))
              && (c.Start? ==> err in {None, Some(OperationInvalid), Some(OperationDenied)})
              && (c.Perform? ==> (err == Some(OperationInvalid) <==> d.state != Running))
              && (c.Perform? ==> (err == Some(MigrationInProgress) <==> d.state == Running && d.migration != NoMigration))
              && (!c.Start? && !c.Perform? ==> err in {None, Some(OperationInvalid)})
  {
    hide Apply, Room;
  }

  /** What errors the calls about hosts and the reservation answer. */
  lemma {:induction false} HostErrors(s: State, id: string, h: Host, d: Domain)
    ensures
      var err := Step(s, AddHost(id, h)).err;
      (err == Some(HostExists) <==> id in s.hosts) && (err == Some(PortInUse) <==> id !in s.hosts && h.port in s.ports)
    ensures id !in s.hosts ==>
              && Step(s, RemoveHost(id)).err == Step(s, Define(id, d)).err == Step(s, Prepare(id, d)).err == Some(HostNotFound)
    ensures id in s.hosts ==>
              var err := Step(s, Prepare(id, d)).err;
              && (err == Some(OperationInvalid) <==> s.hosts[id].state == "online" && d.uuid in s.hosts[id].domains)
              && (s.hosts[id].state != "online" ==> err == Some(OperationDenied))
              && err in {None, Some(OperationInvalid), Some(OperationDenied)}
  {
    hide Apply, Room;
  }

  /** The domain a call leaves: its state, id and migration; everything else about it stays. */
  lemma {:induction false} LifecycleLeaves(s: State, c: Command)
    requires OnDomain(c) && Step(s, c).err == None
    ensures HasDomain(s, c.host, c.uuid)
    ensures (c.Undefine? || c.Confirm?) <==> !HasDomain(Step(s, c).next, c.host, c.uuid)
    ensures HasDomain(Step(s, c).next, c.host, c.uuid) ==>
      var d, d' := s.hosts[c.host].domains[c.uuid], Step(s, c).next.hosts[c.host].domains[c.uuid];
      && d'.name == d.name && d'.uuid == d.uuid && d'.vcpus == d.vcpus && d'.memoryKiB == d.memoryKiB
      && d'.xml == d.xml && d'.interfaceIds == d.interfaceIds
      && (c.Start? ==> d'.state == Running && d'.id == s.nextDomainId && d'.migration == d.migration)
      && (c.Destroy? || c.ShutDown? ==> d'.state == Shutoff && d'.id == -1 && d'.migration == d.migration)
      && (c.Suspend? ==> d'.state == Paused && d'.id == d.id && d'.migration == d.migration)
      && (c.Resume? ==> d'.state == Running && d'.id == d.id && d'.migration == d.migration)
      && (c.Perform? ==> d'.state == Running && d'.id == d.id && d'.migration == Performing && d'.cookie == c.uuid)
      && (c.Finish? ==> d'.state == Running && d'.id == s.nextDomainId && d'.migration == NoMigration && d'.cookie == "")
  {
    hide Room;
    if c.Perform? {
    } else if c.Start? || c.Finish? {
    } else {
    }
  }

  /** A call touches one domain of one host and, if it starts one, the next id. */
  lemma {:induction false} TouchesOne(s: State, c: Command, host: string, uuid: string)
    requires Step(s, c).err == None && (OnDomain(c) || c.Define? || c.Prepare?)
    requires host in s.hosts && (host != c.host || uuid != if OnDomain(c) then c.uuid else c.d.uuid)
    ensures
      var s' := Step(s, c).next;
      && s'.hosts.Keys == s.hosts.Keys && s'.ports == s.ports
      && (uuid in s'.hosts[host].domains <==> uuid in s.hosts[host].domains)
      && (uuid in s.hosts[host].domains ==> s'.hosts[host].domains[uuid] == s.hosts[host].domains[uuid])
      && s'.hosts[host].(domains := map[]) == s.hosts[host].(domains := map[])
      && s'.nextDomainId == s.nextDomainId + if c.Start? || c.Finish? then 1 else 0
  {
    hide Room, DomainCheck, DomainAfter;
  }

  /** What the calls that bring a domain in store under its uuid: a definition shut off, a reservation paused. */
  lemma {:induction false} BroughtIn(s: State, host: string, d: Domain)
    ensures Step(s, Define(host, d)).err == None <==> host in s.hosts
    ensures Step(s, Define(host, d)).err == None ==>
              && HasDomain(Step(s, Define(host, d)).next, host, d.uuid)
              && Step(s, Define(host, d)).next.hosts[host].domains[d.uuid] == d.(state := Shutoff, id := -1)
    ensures Step(s, Prepare(host, d)).err == None ==>
              && HasDomain(Step(s, Prepare(host, d)).next, host, d.uuid)
              && Step(s, Prepare(host, d)).next.hosts[host].domains[d.uuid] ==
                 d.(state := Paused, id := -1, migration := Prepared, cookie := d.uuid)
  {
    hide Room;
  }

  /** Resuming undoes suspending. */
  lemma {:induction false} ResumeUndoesSuspend(s: State, host: string, uuid: string)
    requires Step(s, Suspend(host, uuid)).err == None
    ensures Step(Step(s, Suspend(host, uuid)).next, Resume(host, uuid)) == Outcome(s, None)
  {
    hide Room;
    var h, d := s.hosts[host], s.hosts[host].domains[uuid];
    var h' := h.(domains := h.domains[uuid := d.(state := Paused)]);
    assert Step(s, Suspend(host, uuid)).next == s.(hosts := s.hosts[host := h']);
    assert h'.domains[uuid := d.(state := Running)] == h.domains;
    assert s.hosts[host := h'][host := h] == s.hosts;
  }

  // ---- Hosts and ports --------------------------------------------------------------------------------

  /** The port table is the hosts turned round. */
  predicate PortsMirror(s: State)
  {
    && (forall host :: host in s.hosts ==> s.hosts[host].port in s.ports && s.ports[s.hosts[host].port] == host)
    && (forall p :: p in s.ports ==> s.ports[p] in s.hosts && s.hosts[s.ports[p]].port == p)
  }

  lemma {:induction false} SamePort(h: Host, c: Command, nextId: int)
    requires OnDomain(c) ==> c.uuid in h.domains
    ensures HostAfter(h, c, nextId).port == h.port
  {
    hide DomainAfter;
  }

  lemma {:induction false} PortsStep(s: State, c: Command)
    requires PortsMirror(s)
    ensures PortsMirror(Step(s, c).next)
  {
    hide HostAfter, Room, DomainCheck;
    if Check(s, c).None? && !c.AddHost? && !c.RemoveHost? {
      SamePort(s.hosts[c.host], c, s.nextDomainId);
    }
  }

  /** In every run the port table lists exactly the ports of the hosts there are, so no two hosts share one; a host
      is added if and only if its id and its port are free, with blank state and zero ratios filled in. */
  lemma {:induction false} PortsAgree(cs: seq<Command>, id: string, h: Host)
    ensures PortsMirror(Run(EMPTY, cs))
    ensures
      var s := Run(EMPTY, cs);
      Step(s, AddHost(id, h)).err == None <==> id !in s.hosts && forall host :: host in s.hosts ==> s.hosts[host].port != h.port
    ensures
      var s := Run(EMPTY, cs);
      Step(s, AddHost(id, h)).err == None ==>
        var s' := Step(s, AddHost(id, h)).next;
        && s'.hosts.Keys == s.hosts.Keys + {id} && (forall host :: host in s.hosts ==> s'.hosts[host] == s.hosts[host])
        && s'.hosts[id] ==
           h.(state := if h.state == "" then "online" else h.state,
              cpuRatio := if h.cpuRatio == 0.0 then 1.0 else h.cpuRatio,
              memRatio := if h.memRatio == 0.0 then 1.0 else h.memRatio)
    decreases |cs|
  {
    hide Run;
    PortsRun(cs);
  }

  lemma {:induction false} PortsRun(cs: seq<Command>)
    ensures PortsMirror(Run(EMPTY, cs))
    decreases |cs|
  {
    hide Step;
    if cs != [] {
      PortsRun(cs[..|cs| - 1]);
      PortsStep(Run(EMPTY, cs[..|cs| - 1]), cs[|cs| - 1]);
    }
  }

  /** Removing a host removes it and its port and nothing else; the settings of a host change only what they name. */
  lemma {:induction false} HostCalls(s: State, host: string, st: string, cpu: Option<real>, mem: Option<real>)
    ensures (Step(s, RemoveHost(host)).err == None <==> host in s.hosts)
    ensures host in s.hosts ==>
              && Step(s, RemoveHost(host)).next.hosts == s.hosts - {host}
              && Step(s, RemoveHost(host)).next.ports == s.ports - {s.hosts[host].port}
              && Step(s, SetHostState(host, st)).next == s.(hosts := s.hosts[host := s.hosts[host].(state := st)])
              && Step(s, SetRatios(host, cpu, mem)).next ==
                 s.(hosts := s.hosts[host := s.hosts[host].(
                      cpuRatio := if cpu.Some? then cpu.value else s.hosts[host].cpuRatio,
                      memRatio := if mem.Some? then mem.value else s.hosts[host].memRatio)])
  {
  }

  // ---- Ids ------------------------------------------------------------------------------------------

  /** Domains are stored under their uuids; an id in use was issued, and to one domain only. */
  ghost predicate Identified(s: State)
  {
    && s.nextDomainId >= 1
    && (forall host, u :: HasDomain(s, host, u) ==>
          && s.hosts[host].domains[u].uuid == u
          && (s.hosts[host].domains[u].id == -1 || 1 <= s.hosts[host].domains[u].id < s.nextDomainId))
    && (forall host, u, host', u' :: HasDomain(s, host, u) && HasDomain(s, host', u') ==>
          s.hosts[host].domains[u].id == s.hosts[host'].domains[u'].id ==>
            s.hosts[host].domains[u].id == -1 || (host == host' && u == u'))
  }

  /** Hosts come without domains. */
  predicate Bare(c: Command)
  {
    c.AddHost? ==> c.h.domains == map[]
  }

  /** Where a domain is after a step: as it was, brought in without an id, stopped, or newly issued the next id. */
  lemma {:induction false} DomainOrigin(s: State, c: Command, host: string, u: string)
    requires Bare(c) && HasDomain(Step(s, c).next, host, u)
    ensures
      var d' := Step(s, c).next.hosts[host].domains[u];
      || (HasDomain(s, host, u) && d'.uuid == s.hosts[host].domains[u].uuid &&
          (d'.id == s.hosts[host].domains[u].id || d'.id == -1))
      || (d'.uuid == u && d'.id == -1)
      || (HasDomain(s, host, u) && d'.uuid == s.hosts[host].domains[u].uuid && host == c.host &&
          (c.Start? || c.Finish?) && u == c.uuid && d'.id == s.nextDomainId && Step(s, c).next.nextDomainId == s.nextDomainId + 1)
  {
    hide Room, DomainCheck;
    if Check(s, c).None? {
      if c.AddHost? {
      } else if c.RemoveHost? {
      } else if OnDomain(c) {
      } else {
      }
    }
  }

  lemma {:induction false} NextIdGrows(s: State, c: Command)
    ensures Step(s, c).next.nextDomainId >= s.nextDomainId
  {
    hide Check, HostAfter;
  }

  lemma {:induction false} IdentifiedStep(s: State, c: Command)
    requires Identified(s) && Bare(c)
    ensures Identified(Step(s, c).next)
  {
    hide Step, Bare;
    var s' := Step(s, c).next;
    NextIdGrows(s, c);
    forall host, u | HasDomain(s', host, u)
      ensures s'.hosts[host].domains[u].uuid == u
      ensures s'.hosts[host].domains[u].id == -1 || 1 <= s'.hosts[host].domains[u].id < s'.nextDomainId
    {
      DomainOrigin(s, c, host, u);
    }
    forall host, u, host', u' | HasDomain(s', host, u) && HasDomain(s', host', u')
      ensures s'.hosts[host].domains[u].id == s'.hosts[host'].domains[u'].id ==>
                s'.hosts[host].domains[u].id == -1 || (host == host' && u == u')
    {
      DomainOrigin(s, c, host, u);
      DomainOrigin(s, c, host', u');
    }
  }

  /** In every run every domain is stored under its uuid, and no two domains anywhere have the same id. */
  lemma {:induction false} IdsUnique(cs: seq<Command>)
    requires forall c :: c in cs ==> Bare(c)
    ensures Identified(Run(EMPTY, cs))
    decreases |cs|
  {
    hide Step, Bare;
    if cs != [] {
      IdsUnique(cs[..|cs| - 1]);
      assert Bare(cs[|cs| - 1]);
      IdentifiedStep(Run(EMPTY, cs[..|cs| - 1]), cs[|cs| - 1]);
    }
  }
}
