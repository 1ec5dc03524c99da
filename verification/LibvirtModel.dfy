/** The libvirt simulator's hosts and domains and the calls that change them, one step per call.

    A domain is keyed by the text of its UUID, which stands for its sixteen bytes (see UuidText). */
module LibvirtModel {
  import opened Basics
  import opened Sums

  datatype DomainState =
    | NoState | Running | Blocked | Paused | Shutdown | Shutoff | Crashed | PMSuspended

  datatype MigrationState = NoMigration | Prepared | Performing

  datatype Domain = Domain(
    name: string, uuid: string, id: int, state: DomainState, vcpus: int, memoryKiB: int,
    xml: string, interfaceIds: seq<string>, migration: MigrationState, cookie: string)

  datatype Hardware = Hardware(sockets: int, coresPerSocket: int, threadsPerCore: int, memoryMB: int)

  datatype Host = Host(
    port: int, hardware: Hardware, cpuRatio: real, memRatio: real, state: string,
    domains: map<string, Domain>)

  datatype State = State(hosts: map<string, Host>, ports: map<int, string>, nextDomainId: int)

  const EMPTY := State(map[], map[], 1)

  datatype Error =
    | HostNotFound | HostExists | PortInUse | NoDomain
    | OperationInvalid | OperationDenied | MigrationInProgress

  datatype Outcome = Outcome(next: State, err: Option<Error>)

  datatype Command =
    | AddHost(host: string, h: Host)
    | RemoveHost(host: string)
    | SetHostState(host: string, hostState: string)
    | SetRatios(host: string, cpuRatio: Option<real>, memRatio: Option<real>)
    | Define(host: string, d: Domain)
    | Start(host: string, uuid: string)
    | Destroy(host: string, uuid: string)
    | ShutDown(host: string, uuid: string)
    | Suspend(host: string, uuid: string)
    | Resume(host: string, uuid: string)
    | Undefine(host: string, uuid: string)
    | Prepare(host: string, d: Domain)
    | Perform(host: string, uuid: string)
    | Finish(host: string, uuid: string)
    | Confirm(host: string, uuid: string)

  /** KiB to whole MB: toward zero. */
  function WholeMB(kib: int): int
  {
    if kib >= 0 then kib / 1024 else -((-kib) / 1024)
  }

  function ScaledVCPUs(hw: Hardware, ratio: real): int
  {
    Trunc((hw.sockets * hw.coresPerSocket * hw.threadsPerCore) as real * ratio)
  }

  function ScaledMB(hw: Hardware, ratio: real): int
  {
    Trunc(hw.memoryMB as real * ratio)
  }

  /** The vCPUs a host offers, overcommit included. */
  function AvailableVCPUs(h: Host): int
  {
    ScaledVCPUs(h.hardware, h.cpuRatio)
  }

  /** The megabytes a host offers, overcommit included. */
  function AvailableMB(h: Host): int
  {
    ScaledMB(h.hardware, h.memRatio)
  }

  /** Running and paused domains hold their resources. */
  predicate Active(d: Domain)
  {
    d.state == Running || d.state == Paused
  }

  function ActiveVCPUs(d: Domain): int { if Active(d) then d.vcpus else 0 }

  function ActiveMB(d: Domain): int { if Active(d) then WholeMB(d.memoryKiB) else 0 }

  ghost function UsedVCPUs(h: Host): int
  {
    Total(h.domains, ActiveVCPUs)
  }

  ghost function UsedMB(h: Host): int
  {
    Total(h.domains, ActiveMB)
  }

  /** Whether the host has room for one more active domain like `d`. */
  ghost predicate Room(h: Host, d: Domain)
  {
    UsedVCPUs(h) + d.vcpus <= AvailableVCPUs(h) && UsedMB(h) + WholeMB(d.memoryKiB) <= AvailableMB(h)
  }

  /** The calls about one domain that is there already. */
  predicate OnDomain(c: Command)
  {
    || c.Start? || c.Destroy? || c.ShutDown? || c.Suspend? || c.Resume? || c.Undefine?
    || c.Perform? || c.Finish? || c.Confirm?
  }

  /** The error of a call about one existing domain. */
  ghost function DomainCheck(h: Host, d: Domain, c: Command): Option<Error>
    requires OnDomain(c)
  {
    match c
    case Start(_, _) =>
      if d.state != Shutoff then Some(OperationInvalid)
      else if !Room(h, d) then Some(OperationDenied)
      else None
    case Destroy(_, _) => if !Active(d) then Some(OperationInvalid) else None
    case ShutDown(_, _) => if d.state != Running then Some(OperationInvalid) else None
    case Suspend(_, _) => if d.state != Running then Some(OperationInvalid) else None
    case Resume(_, _) => if d.state != Paused then Some(OperationInvalid) else None
    case Undefine(_, _) => if d.state != Shutoff then Some(OperationInvalid) else None
    case Perform(_, _) =>
      if d.state != Running then Some(OperationInvalid)
      else if d.migration != NoMigration then Some(MigrationInProgress)
      else None
    case Finish(_, _) => if d.migration != Prepared then Some(OperationInvalid) else None
    case Confirm(_, _) => if d.migration != Performing then Some(OperationInvalid) else None
  }

  /** The error a call returns before changing anything. */
  ghost function Check(s: State, c: Command): Option<Error>
  {
    if c.AddHost? then
      if c.host in s.hosts then Some(HostExists)
      else if c.h.port in s.ports then Some(PortInUse)
      else None
    else if c.host !in s.hosts then Some(HostNotFound)
    else if c.Prepare? then
      var h := s.hosts[c.host];
      if h.state != "online" then Some(OperationDenied)
      else if c.d.uuid in h.domains then Some(OperationInvalid)
      else if !Room(h, c.d) then Some(OperationDenied)
      else None
    else if OnDomain(c) then
      if c.uuid !in s.hosts[c.host].domains then Some(NoDomain)
      else DomainCheck(s.hosts[c.host], s.hosts[c.host].domains[c.uuid], c)
    else None
  }

  /** The domain after a call about it, or none if the call removes it. */
  function DomainAfter(d: Domain, c: Command, nextId: int): Option<Domain>
    requires OnDomain(c)
  {
    match c
    case Start(_, _) => Some(d.(state := Running, id := nextId))
    case Destroy(_, _) => Some(d.(state := Shutoff, id := -1))
    case ShutDown(_, _) => Some(d.(state := Shutoff, id := -1))
    case Suspend(_, _) => Some(d.(state := Paused))
    case Resume(_, _) => Some(d.(state := Running))
    case Undefine(_, _) => None
    case Perform(_, uuid) => Some(d.(migration := Performing, cookie := uuid))
    case Finish(_, _) => Some(d.(state := Running, id := nextId, migration := NoMigration, cookie := ""))
    case Confirm(_, _) => None
  }

  /** What MigratePrepare puts on the destination: the same domain, paused, holding its reservation. */
  function Placeholder(d: Domain): Domain
  {
    d.(id := -1, state := Paused, migration := Prepared, cookie := d.uuid)
  }

  /** A host as AddHost stores it: blank fields take their defaults. */
  function WithDefaults(h: Host): Host
  {
    h.(state := if h.state == "" then "online" else h.state,
       cpuRatio := if h.cpuRatio == 0.0 then 1.0 else h.cpuRatio,
       memRatio := if h.memRatio == 0.0 then 1.0 else h.memRatio)
  }

  function PutDomain(h: Host, uuid: string, d: Option<Domain>): Host
  {
    h.(domains := if d.Some? then h.domains[uuid := d.value] else h.domains - {uuid})
  }

  /** The host a call changes, as it is afterwards. */
  function HostAfter(h: Host, c: Command, nextId: int): Host
    requires OnDomain(c) ==> c.uuid in h.domains
  {
    match c
    case AddHost(_, _) => h
    case RemoveHost(_) => h
    case SetHostState(_, st) => h.(state := st)
    case SetRatios(_, cpu, mem) =>
      h.(cpuRatio := if cpu.Some? then cpu.value else h.cpuRatio,
         memRatio := if mem.Some? then mem.value else h.memRatio)
    case Define(_, d) => PutDomain(h, d.uuid, Some(d.(state := Shutoff, id := -1)))
    case Prepare(_, d) => PutDomain(h, d.uuid, Some(Placeholder(d)))
    case _ => PutDomain(h, c.uuid, DomainAfter(h.domains[c.uuid], c, nextId))
  }

  /** The state after a call that passed its checks. */
  ghost function Apply(s: State, c: Command): State
    requires Check(s, c).None?
  {
    if c.AddHost? then
      s.(hosts := s.hosts[c.host := WithDefaults(c.h)], ports := s.ports[c.h.port := c.host])
    else if c.RemoveHost? then
      s.(hosts := s.hosts - {c.host}, ports := s.ports - {s.hosts[c.host].port})
    else
      s.(hosts := s.hosts[c.host := HostAfter(s.hosts[c.host], c, s.nextDomainId)],
         nextDomainId := if c.Start? || c.Finish? then s.nextDomainId + 1 else s.nextDomainId)
  }

  ghost function Step(s: State, c: Command): Outcome
  {
    match Check(s, c)
    case Some(e) => Outcome(s, Some(e))
    case None => Outcome(Apply(s, c), None)
  }

  /** The state after a whole run. */
  ghost function Run(s: State, cs: seq<Command>): State
    decreases |cs|
  {
    if cs == [] then s else Step(Run(s, cs[..|cs| - 1]), cs[|cs| - 1]).next
  }

  lemma {:induction false} RunNone(s: State, cs: seq<Command>)
    ensures Run(s, cs[..0]) == s
  {
  }

  lemma {:induction false} RunOneMore(s: State, cs: seq<Command>, k: nat)
    requires k < |cs|
    ensures Run(s, cs[..k + 1]) == Step(Run(s, cs[..k]), cs[k]).next
  {
    assert cs[..k + 1][..k] == cs[..k];
  }
}
