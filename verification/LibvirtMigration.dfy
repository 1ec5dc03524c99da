/** Live migration across two hosts: Prepare on the destination, Perform on the source, Finish on the
    destination, Confirm on the source, with anything about other domains in between. */
module LibvirtMigration {
  import opened LibvirtModel

  predicate OnHost(s: State, host: string, uuid: string)
  {
    host in s.hosts && uuid in s.hosts[host].domains
  }

  function DomainOn(s: State, host: string, uuid: string): Domain
    requires OnHost(s, host, uuid)
  {
    s.hosts[host].domains[uuid]
  }

  /** The hosts on which a domain holds a reservation. */
  function Reservations(s: State, uuid: string): set<string>
  {
    set host | host in s.hosts && OnHost(s, host, uuid) && Active(DomainOn(s, host, uuid))
  }

  predicate RunsSomewhere(s: State, uuid: string)
  {
    exists host :: host in s.hosts && OnHost(s, host, uuid) && DomainOn(s, host, uuid).state == Running
  }

  /** A call that does not concern the domain, does not take away either host and brings no host that
      already has the domain. */
  predicate Elsewhere(c: Command, src: string, dst: string, uuid: string)
  {
    && (OnDomain(c) ==> c.uuid != uuid)
    && (c.Define? || c.Prepare? ==> c.d.uuid != uuid)
    && (c.RemoveHost? ==> c.host != src && c.host != dst)
    && (c.AddHost? ==> uuid !in c.h.domains)
  }

  /** The domain as it is on the source once the transfer is under way. */
  function Leaving(d: Domain): Domain
  {
    d.(migration := Performing, cookie := d.uuid)
  }

  /** The domain as it is on the destination once it has been activated there. */
  predicate Arrived(d: Domain, a: Domain)
  {
    a == d.(id := a.id, state := Running, migration := NoMigration, cookie := "")
  }

  /** Where the domain is, and how, after the first `phase` calls of the protocol. */
  predicate At(s: State, phase: nat, src: string, dst: string, d: Domain)
  {
    && (forall host :: host in s.hosts && OnHost(s, host, d.uuid) ==>
          (phase <= 3 && host == src) || (phase >= 1 && host == dst))
    && (phase <= 3 ==> OnHost(s, src, d.uuid))
    && (phase >= 1 ==> OnHost(s, dst, d.uuid) && src != dst)
    && (phase <= 1 ==> DomainOn(s, src, d.uuid) == d)
    && (phase == 2 || phase == 3 ==> DomainOn(s, src, d.uuid) == Leaving(d))
    && (phase == 1 || phase == 2 ==> DomainOn(s, dst, d.uuid) == Placeholder(d))
    && (phase >= 3 ==> Arrived(d, DomainOn(s, dst, d.uuid)))
  }

  /** The call that ends phase `phase`. */
  function Phase(phase: nat, src: string, dst: string, d: Domain): Command
  {
    if phase == 0 then Prepare(dst, d)
    else if phase == 1 then Perform(src, d.uuid)
    else if phase == 2 then Finish(dst, d.uuid)
    else Confirm(src, d.uuid)
  }

  lemma {:induction false} ElsewhereKeeps(s: State, c: Command, src: string, dst: string, uuid: string, host: string)
    requires Elsewhere(c, src, dst, uuid)
    ensures OnHost(Step(s, c).next, host, uuid) ==> OnHost(s, host, uuid)
    ensures OnHost(s, host, uuid) && (host == src || host == dst) ==>
              OnHost(Step(s, c).next, host, uuid) && DomainOn(Step(s, c).next, host, uuid) == DomainOn(s, host, uuid)
  {
    if Check(s, c).None? {
      if c.AddHost? {
      } else if c.RemoveHost? {
      } else if OnDomain(c) {
      } else {
      }
    }
  }

  lemma {:induction false} AtElsewhere(s: State, c: Command, phase: nat, src: string, dst: string, d: Domain)
    requires At(s, phase, src, dst, d) && Elsewhere(c, src, dst, d.uuid)
    ensures At(Step(s, c).next, phase, src, dst, d)
  {
    var s' := Step(s, c).next;
    ElsewhereKeeps(s, c, src, dst, d.uuid, src);
    ElsewhereKeeps(s, c, src, dst, d.uuid, dst);
    forall host | host in s'.hosts && OnHost(s', host, d.uuid)
      ensures (phase <= 3 && host == src) || (phase >= 1 && host == dst)
    {
      ElsewhereKeeps(s, c, src, dst, d.uuid, host);
    }
  }

  /** Each call of the protocol, when it succeeds, takes the domain to the next phase. */
  lemma {:induction false} AtNext(s: State, phase: nat, src: string, dst: string, d: Domain)
    requires phase <= 3 && At(s, phase, src, dst, d) && Check(s, Phase(phase, src, dst, d)).None?
    ensures At(Step(s, Phase(phase, src, dst, d)).next, phase + 1, src, dst, d)
  {
    if phase == 0 {
      assert src != dst;
    } else if phase == 1 {
    } else if phase == 2 {
    } else {
    }
  }

  /** Perform succeeds only for a domain that runs and is not migrating already. */
  lemma {:induction false} PerformNeedsRunning(s: State, src: string, dst: string, d: Domain)
    requires At(s, 1, src, dst, d) && Check(s, Perform(src, d.uuid)).None?
    ensures d.state == Running && d.migration == NoMigration
  {
  }

  /** The four calls stand at `at[0] < at[1] < at[2] < at[3]` and everything else in the run is about
      something else. */
  predicate Schedule(cs: seq<Command>, at: seq<nat>, src: string, dst: string, d: Domain)
  {
    && |at| == 4 && at[0] < at[1] < at[2] < at[3] < |cs|
    && (forall i :: 0 <= i < 4 ==> cs[at[i]] == Phase(i, src, dst, d))
    && (forall k :: 0 <= k < |cs| && k !in at ==> Elsewhere(cs[k], src, dst, d.uuid))
  }

  /** Those of the four calls that lie before position `k` succeed. */
  ghost predicate SucceedBefore(s: State, cs: seq<Command>, at: seq<nat>, k: nat)
  {
    forall i :: 0 <= i < |at| && at[i] < k && at[i] < |cs| ==> Check(Run(s, cs[..at[i]]), cs[at[i]]).None?
  }

  /** How many of the four calls lie before position `k`. */
  function PhaseAt(at: seq<nat>, k: nat): (p: nat)
    requires |at| == 4
  {
    if k <= at[0] then 0 else if k <= at[1] then 1 else if k <= at[2] then 2 else if k <= at[3] then 3 else 4
  }

  lemma PhaseAtStep(at: seq<nat>, k: nat)
    requires |at| == 4 && at[0] < at[1] < at[2] < at[3]
    ensures
      var p := PhaseAt(at, k);
      if k in at then p <= 3 && at[p] == k && PhaseAt(at, k + 1) == p + 1 else PhaseAt(at, k + 1) == p
  {
  }

  lemma {:induction false} AtStep(s: State, c: Command, phase: nat, phase': nat, src: string, dst: string, d: Domain)
    requires At(s, phase, src, dst, d)
    requires
      || (phase' == phase && Elsewhere(c, src, dst, d.uuid))
      || (phase' == phase + 1 && phase <= 3 && c == Phase(phase, src, dst, d) && Check(s, c).None?)
    ensures At(Step(s, c).next, phase', src, dst, d)
  {
    if phase' == phase {
      AtElsewhere(s, c, phase, src, dst, d);
    } else {
      AtNext(s, phase, src, dst, d);
    }
  }

  /** The call at position `k` either ends the phase that position is in or is about something else. */
  lemma {:induction false} CallAt(s: State, cs: seq<Command>, at: seq<nat>, src: string, dst: string, d: Domain, k: nat)
    requires Schedule(cs, at, src, dst, d) && k < |cs| && SucceedBefore(s, cs, at, k + 1)
    ensures
      var p, p' := PhaseAt(at, k), PhaseAt(at, k + 1);
      || (p' == p && Elsewhere(cs[k], src, dst, d.uuid))
      || (p' == p + 1 && p <= 3 && cs[k] == Phase(p, src, dst, d) && Check(Run(s, cs[..k]), cs[k]).None?)
  {
    hide Check, Run, Elsewhere, Phase;
    PhaseAtStep(at, k);
    if k in at {
      var p := PhaseAt(at, k);
      assert cs[at[p]] == Phase(p, src, dst, d);
      assert Check(Run(s, cs[..at[p]]), cs[at[p]]).None?;
    }
  }

  lemma {:induction false} AtOneMore(
    s: State, cs: seq<Command>, k: nat, phase: nat, phase': nat, src: string, dst: string, d: Domain)
    requires k < |cs| && At(Run(s, cs[..k]), phase, src, dst, d)
    requires
      || (phase' == phase && Elsewhere(cs[k], src, dst, d.uuid))
      || (phase' == phase + 1 && phase <= 3 && cs[k] == Phase(phase, src, dst, d) &&
          Check(Run(s, cs[..k]), cs[k]).None?)
    ensures At(Run(s, cs[..k + 1]), phase', src, dst, d)
  {
    RunOneMore(s, cs, k);
    AtStep(Run(s, cs[..k]), cs[k], phase, phase', src, dst, d);
  }

  lemma {:induction false} AtEveryPoint(s: State, cs: seq<Command>, at: seq<nat>, src: string, dst: string, d: Domain, k: nat)
    requires At(s, 0, src, dst, d) && Schedule(cs, at, src, dst, d) && k <= |cs| && SucceedBefore(s, cs, at, k)
    ensures At(Run(s, cs[..k]), PhaseAt(at, k), src, dst, d)
    decreases k
  {
    hide At, Step, Elsewhere, Phase, Check, Run;
    if k > 0 {
      AtEveryPoint(s, cs, at, src, dst, d, k - 1);
      CallAt(s, cs, at, src, dst, d, k - 1);
      AtOneMore(s, cs, k - 1, PhaseAt(at, k - 1), PhaseAt(at, k), src, dst, d);
    } else {
      RunNone(s, cs);
    }
  }

  /** What a phase means to an observer. */
  lemma {:induction false} PhaseMeans(s: State, phase: nat, src: string, dst: string, d: Domain)
    requires At(s, phase, src, dst, d) && phase <= 4 && d.state == Running
    ensures RunsSomewhere(s, d.uuid)
    ensures Reservations(s, d.uuid) == if phase == 0 then {src} else if phase <= 3 then {src, dst} else {dst}
  {
    var host := if phase <= 3 then src else dst;
    assert OnHost(s, host, d.uuid) && DomainOn(s, host, d.uuid).state == Running;
  }

  /** What is promised about the domain at position `k` of the run. */
  predicate Served(s: State, k: nat, at: seq<nat>, src: string, dst: string, uuid: string)
    requires |at| == 4
  {
    && RunsSomewhere(s, uuid)
    && Reservations(s, uuid) == if k <= at[0] then {src} else if k <= at[3] then {src, dst} else {dst}
  }

  lemma {:induction false} ServedAt(s: State, cs: seq<Command>, at: seq<nat>, src: string, dst: string, d: Domain, k: nat)
    requires At(s, 0, src, dst, d) && Schedule(cs, at, src, dst, d) && SucceedBefore(s, cs, at, |cs|) && k <= |cs|
    ensures Served(Run(s, cs[..k]), k, at, src, dst, d.uuid)
  {
    hide Step, Elsewhere, At, RunsSomewhere, Reservations;
    AtEveryPoint(s, cs, at, src, dst, d, at[1]);
    assert cs[at[1]] == Phase(1, src, dst, d) && Check(Run(s, cs[..at[1]]), cs[at[1]]).None?;
    PerformNeedsRunning(Run(s, cs[..at[1]]), src, dst, d);
    AtEveryPoint(s, cs, at, src, dst, d, k);
    PhaseMeans(Run(s, cs[..k]), PhaseAt(at, k), src, dst, d);
  }

  /** The same machine, running, out of migration. */
  predicate SameMachine(d: Domain, a: Domain)
  {
    && a.state == Running && a.migration == NoMigration
    && a.name == d.name && a.uuid == d.uuid && a.xml == d.xml
    && a.vcpus == d.vcpus && a.memoryKiB == d.memoryKiB && a.interfaceIds == d.interfaceIds
  }

  lemma {:induction false} Ended(s: State, src: string, dst: string, d: Domain)
    requires At(s, 4, src, dst, d)
    ensures src != dst && forall host :: OnHost(s, host, d.uuid) <==> host == dst
    ensures SameMachine(d, DomainOn(s, dst, d.uuid))
  {
  }

  lemma {:induction false} EndsOnDestination(s: State, cs: seq<Command>, at: seq<nat>, src: string, dst: string, d: Domain)
    requires At(s, 0, src, dst, d) && Schedule(cs, at, src, dst, d) && SucceedBefore(s, cs, at, |cs|)
    ensures src != dst && forall host :: OnHost(Run(s, cs), host, d.uuid) <==> host == dst
    ensures SameMachine(d, DomainOn(Run(s, cs), dst, d.uuid))
  {
    hide At, Run;
    AtEveryPoint(s, cs, at, src, dst, d, |cs|);
    assert PhaseAt(at, |cs|) == 4;
    assert cs[..|cs|] == cs;
    Ended(Run(s, cs), src, dst, d);
  }

  /** Four-phase live migration. If the four calls succeed in order for a domain that starts out on the
      source only, then at every point of the run some host has it running; its reservation is held on
      the source before Prepare, on both hosts until Confirm and on the destination after; and at the end
      it is on the destination only, running, with the same name, XML, vCPUs, memory and interfaces. */
  lemma {:induction false} FourPhaseMigration(s: State, cs: seq<Command>, at: seq<nat>, src: string, dst: string, d: Domain)
    requires OnHost(s, src, d.uuid) && DomainOn(s, src, d.uuid) == d
    requires forall host :: OnHost(s, host, d.uuid) ==> host == src
    requires Schedule(cs, at, src, dst, d) && SucceedBefore(s, cs, at, |cs|)
    ensures forall k :: 0 <= k <= |cs| ==> Served(Run(s, cs[..k]), k, at, src, dst, d.uuid)
    ensures src != dst && forall host :: OnHost(Run(s, cs), host, d.uuid) <==> host == dst
    ensures SameMachine(d, DomainOn(Run(s, cs), dst, d.uuid))
  {
    forall k | 0 <= k <= |cs|
      ensures Served(Run(s, cs[..k]), k, at, src, dst, d.uuid)
    {
      ServedAt(s, cs, at, src, dst, d, k);
    }
    EndsOnDestination(s, cs, at, src, dst, d);
  }

  /** Once the placeholder is there, the later calls depend on the domain alone. */
  lemma {:induction false} PhaseGoesThrough(s: State, phase: nat, src: string, dst: string, d: Domain)
    requires At(s, phase, src, dst, d) && 1 <= phase <= 3
    requires d.state == Running && d.migration == NoMigration
    ensures Check(s, Phase(phase, src, dst, d)).None?
  {
    if phase == 1 {
    } else if phase == 2 {
    } else {
    }
  }

  lemma {:induction false} NextSucceeds(
    s: State, cs: seq<Command>, at: seq<nat>, src: string, dst: string, d: Domain, phase: nat)
    requires At(s, 0, src, dst, d) && Schedule(cs, at, src, dst, d) && 1 <= phase <= 3
    requires SucceedBefore(s, cs, at, at[phase]) && d.state == Running && d.migration == NoMigration
    ensures SucceedBefore(s, cs, at, if phase < 3 then at[phase + 1] else |cs|)
  {
    hide At, Check, Run, Elsewhere, Phase;
    assert cs[at[phase]] == Phase(phase, src, dst, d);
    assert PhaseAt(at, at[phase]) == phase;
    AtEveryPoint(s, cs, at, src, dst, d, at[phase]);
    PhaseGoesThrough(Run(s, cs[..at[phase]]), phase, src, dst, d);
  }

  lemma {:induction false} RunningSucceeds(
    s: State, cs: seq<Command>, at: seq<nat>, src: string, dst: string, d: Domain)
    requires At(s, 0, src, dst, d) && Schedule(cs, at, src, dst, d) && SucceedBefore(s, cs, at, at[1])
    requires d.state == Running && d.migration == NoMigration
    ensures SucceedBefore(s, cs, at, |cs|)
  {
    hide At, SucceedBefore, Schedule;
    NextSucceeds(s, cs, at, src, dst, d, 1);
    NextSucceeds(s, cs, at, src, dst, d, 2);
    NextSucceeds(s, cs, at, src, dst, d, 3);
  }

  lemma {:induction false} SuccessNeedsRunning(
    s: State, cs: seq<Command>, at: seq<nat>, src: string, dst: string, d: Domain)
    requires At(s, 0, src, dst, d) && Schedule(cs, at, src, dst, d) && SucceedBefore(s, cs, at, |cs|)
    ensures d.state == Running && d.migration == NoMigration
  {
    hide At, Check, Run, Elsewhere;
    assert cs[at[1]] == Phase(1, src, dst, d) && Check(Run(s, cs[..at[1]]), cs[at[1]]).None?;
    AtEveryPoint(s, cs, at, src, dst, d, at[1]);
    PerformNeedsRunning(Run(s, cs[..at[1]]), src, dst, d);
  }

  lemma {:induction false} PrepareSucceeds(
    s: State, cs: seq<Command>, at: seq<nat>, src: string, dst: string, d: Domain)
    requires Schedule(cs, at, src, dst, d) && Check(Run(s, cs[..at[0]]), Prepare(dst, d)).None?
    ensures SucceedBefore(s, cs, at, at[1])
  {
    hide Check, Run, Elsewhere;
    assert cs[at[0]] == Phase(0, src, dst, d);
  }

  /** Once Prepare has succeeded, the migration goes through if and only if the domain is running and not
      migrating when it starts, whatever happens to other domains in between. */
  lemma {:induction false} MigrationSucceedsIff(
    s: State, cs: seq<Command>, at: seq<nat>, src: string, dst: string, d: Domain)
    requires OnHost(s, src, d.uuid) && DomainOn(s, src, d.uuid) == d
    requires forall host :: OnHost(s, host, d.uuid) ==> host == src
    requires Schedule(cs, at, src, dst, d)
    requires Check(Run(s, cs[..at[0]]), Prepare(dst, d)).None?
    ensures SucceedBefore(s, cs, at, |cs|) <==> d.state == Running && d.migration == NoMigration
  {
    hide Check, Run, Elsewhere, SucceedBefore;
    assert At(s, 0, src, dst, d);
    PrepareSucceeds(s, cs, at, src, dst, d);
    if d.state == Running && d.migration == NoMigration {
      RunningSucceeds(s, cs, at, src, dst, d);
    } else if SucceedBefore(s, cs, at, |cs|) {
      SuccessNeedsRunning(s, cs, at, src, dst, d);
    }
  }
}
