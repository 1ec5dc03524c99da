/** Exactly which runs keep every host within what it offers, and runs that do not. */
module LibvirtLimits {
  import opened Basics
  import opened Sums
  import opened LibvirtModel
  import opened LibvirtAdmission

  /** Hosts are registered empty and offer something, and domains do not ask for negative amounts. */
  predicate Tidy(c: Command)
  {
    && (c.AddHost? ==>
          c.h.domains == map[] && AvailableVCPUs(WithDefaults(c.h)) >= 0 && AvailableMB(WithDefaults(c.h)) >= 0)
    && (c.Define? || c.Prepare? ==> Demand(c.d))
  }

  predicate Modest(h: Host)
  {
    forall u :: u in h.domains ==> Demand(h.domains[u])
  }

  predicate AllModest(s: State)
  {
    forall host :: host in s.hosts ==> Modest(s.hosts[host])
  }

  ghost predicate AllWithin(s: State)
  {
    forall host :: host in s.hosts ==> Within(s.hosts[host])
  }

  /** The call finishes a stopped placeholder that does not fit any more, or lowers a ratio below what is in
      use. */
  ghost predicate Overruns(s: State, c: Command)
  {
    && Check(s, c).None?
    && (|| (c.Finish? && !Active(s.hosts[c.host].domains[c.uuid]) &&
            !Room(s.hosts[c.host], s.hosts[c.host].domains[c.uuid]))
        || (c.SetRatios? &&
            var h, h' := s.hosts[c.host], HostAfter(s.hosts[c.host], c, s.nextDomainId);
            AvailableVCPUs(h') < UsedVCPUs(h) || AvailableMB(h') < UsedMB(h)))
  }

  lemma {:induction false} PutWithinIff(h: Host, uuid: string, d: Domain)
    requires Within(h) && Modest(h) && Demand(d)
    ensures !Active(d) || Room(h, d) ==> Within(PutDomain(h, uuid, Some(d)))
    ensures uuid in h.domains && d.vcpus == h.domains[uuid].vcpus && d.memoryKiB == h.domains[uuid].memoryKiB && Active(d) ==>
              (Within(PutDomain(h, uuid, Some(d))) <==> Active(h.domains[uuid]) || Room(h, d))
  {
    PutUsage(h, uuid, d);
    var h' := PutDomain(h, uuid, Some(d));
    assert AvailableVCPUs(h') == AvailableVCPUs(h) && AvailableMB(h') == AvailableMB(h);
    assert uuid in h.domains ==> Demand(h.domains[uuid]);
    hide UsedVCPUs, UsedMB, AvailableVCPUs, AvailableMB;
  }

  lemma {:induction false} DropStaysWithin(h: Host, uuid: string)
    requires Within(h) && Modest(h) && uuid in h.domains
    ensures Within(PutDomain(h, uuid, None))
  {
    hide UsedVCPUs, UsedMB, ScaledVCPUs, ScaledMB;
    DropUsage(h, uuid);
    assert Demand(h.domains[uuid]);
  }

  lemma {:induction false} DomainCallIff(h: Host, c: Command, nextId: int)
    requires Within(h) && Modest(h) && OnDomain(c) && c.uuid in h.domains
    requires DomainCheck(h, h.domains[c.uuid], c).None?
    ensures Within(HostAfter(h, c, nextId)) <==>
            !(c.Finish? && !Active(h.domains[c.uuid]) && !Room(h, h.domains[c.uuid]))
  {
    var d := h.domains[c.uuid];
    var d' := DomainAfter(d, c, nextId);
    assert Demand(d);
    if d'.Some? {
      PutWithinIff(h, c.uuid, d'.value);
      assert Room(h, d'.value) <==> Room(h, d);
    } else {
      DropStaysWithin(h, c.uuid);
    }
    hide Within, Room;
  }

  lemma {:induction false} HostCallIff(s: State, c: Command)
    requires AllWithin(s) && AllModest(s) && Tidy(c) && Check(s, c).None? && !c.AddHost? && !c.RemoveHost?
    ensures Within(HostAfter(s.hosts[c.host], c, s.nextDomainId)) <==> !Overruns(s, c)
  {
    var h := s.hosts[c.host];
    assert Modest(h) && Within(h);
    if OnDomain(c) {
      hide Within, Room, HostAfter, Modest, UsedVCPUs, UsedMB;
      DomainCallIff(h, c, s.nextDomainId);
    } else if c.Define? {
      PutWithinIff(h, c.d.uuid, c.d.(state := Shutoff, id := -1));
    } else if c.Prepare? {
      assert Room(h, Placeholder(c.d));
      PutWithinIff(h, c.d.uuid, Placeholder(c.d));
    }
  }

  lemma {:induction false} AddedWithin(c: Command)
    requires c.AddHost? && Tidy(c)
    ensures Within(WithDefaults(c.h))
  {
  }

  /** One call keeps every host within its bounds if and only if it does not overrun one. */
  lemma {:induction false} WithinStepIff(s: State, c: Command)
    requires AllWithin(s) && AllModest(s) && Tidy(c)
    ensures AllWithin(Step(s, c).next) <==> !Overruns(s, c)
  {
    hide Within, HostAfter, DomainCheck, Room, WithDefaults, UsedVCPUs, UsedMB, AvailableVCPUs, AvailableMB;
    if Check(s, c).None? {
      if c.AddHost? {
        AddedWithin(c);
      } else if !c.RemoveHost? {
        HostCallIff(s, c);
        assert c.host in Step(s, c).next.hosts;
      }
    }
  }

  lemma {:induction false} ModestHost(h: Host, c: Command, nextId: int)
    requires Modest(h) && Tidy(c) && (OnDomain(c) ==> c.uuid in h.domains) && !c.AddHost?
    ensures Modest(HostAfter(h, c, nextId))
  {
    hide ScaledVCPUs, ScaledMB;
    if OnDomain(c) {
      assert Demand(h.domains[c.uuid]);
      assert DomainAfter(h.domains[c.uuid], c, nextId).Some? ==> Demand(DomainAfter(h.domains[c.uuid], c, nextId).value);
      hide DomainAfter, Demand;
    }
  }

  lemma {:induction false} ModestStep(s: State, c: Command)
    requires AllModest(s) && Tidy(c)
    ensures AllModest(Step(s, c).next)
  {
    hide Room, HostAfter, Modest, DomainCheck, Demand, AvailableVCPUs, AvailableMB;
    if Check(s, c).None? {
      if c.AddHost? {
        NoDomainsModest(WithDefaults(c.h));
      } else if !c.RemoveHost? {
        ModestHost(s.hosts[c.host], c, s.nextDomainId);
      }
    }
  }

  lemma NoDomainsModest(h: Host)
    ensures h.domains == map[] ==> Modest(h)
  {
  }

  lemma {:induction false} ModestRun(cs: seq<Command>, k: nat)
    requires k <= |cs| && forall c :: c in cs ==> Tidy(c)
    ensures AllModest(Run(EMPTY, cs[..k]))
    decreases k
  {
    hide Step, Tidy, Run;
    if k == 0 {
      RunNone(EMPTY, cs);
    } else {
      ModestRun(cs, k - 1);
      RunOneMore(EMPTY, cs, k - 1);
      assert Tidy(cs[k - 1]);
      ModestStep(Run(EMPTY, cs[..k - 1]), cs[k - 1]);
    }
  }

  ghost predicate NeverOverruns(cs: seq<Command>, k: nat)
    requires k <= |cs|
  {
    forall j :: 0 <= j < k ==> !Overruns(Run(EMPTY, cs[..j]), cs[j])
  }

  ghost predicate StaysWithin(cs: seq<Command>, k: nat)
    requires k <= |cs|
  {
    forall j :: 0 <= j <= k ==> AllWithin(Run(EMPTY, cs[..j]))
  }

  lemma {:induction false} StaysWithinIff(cs: seq<Command>, k: nat)
    requires k <= |cs| && forall c :: c in cs ==> Tidy(c)
    ensures StaysWithin(cs, k) <==> NeverOverruns(cs, k)
    decreases k
  {
    hide Step, Tidy, Run, Overruns, AllWithin;
    if k == 0 {
      RunNone(EMPTY, cs);
      EmptyWithin();
    } else {
      var j := k - 1;
      StaysWithinIff(cs, j);
      ModestRun(cs, j);
      RunOneMore(EMPTY, cs, j);
      assert Tidy(cs[j]);
      if AllWithin(Run(EMPTY, cs[..j])) {
        WithinStepIff(Run(EMPTY, cs[..j]), cs[j]);
      }
      assert StaysWithin(cs, k) <==> StaysWithin(cs, j) && AllWithin(Run(EMPTY, cs[..k]));
      assert NeverOverruns(cs, k) <==> NeverOverruns(cs, j) && !Overruns(Run(EMPTY, cs[..j]), cs[j]);
    }
  }

  lemma EmptyWithin()
    ensures AllWithin(EMPTY)
  {
  }

  /** Exactly when every host is within its bounds at every point of a run, changed ratios and stopped
      placeholders included: when no stopped placeholder is finished where it no longer fits and no ratio is
      lowered below what is in use. */
  lemma {:induction false} AdmissionIff(cs: seq<Command>)
    requires forall c :: c in cs ==> Tidy(c)
    ensures (forall k :: 0 <= k <= |cs| ==> AllWithin(Run(EMPTY, cs[..k]))) <==>
            (forall k :: 0 <= k < |cs| ==> !Overruns(Run(EMPTY, cs[..k]), cs[k]))
  {
    StaysWithinIff(cs, |cs|);
  }

  // ---- Runs that overrun a host -----------------------------------------------------------------------

  /** A host with one vCPU and no overcommit, and these domains. */
  function Small(domains: map<string, Domain>): Host
  {
    Host(16509, Hardware(1, 1, 1, 1), 1.0, 1.0, "online", domains)
  }

  /** A domain with one vCPU. */
  function One(uuid: string): Domain
  {
    Domain(uuid, uuid, -1, Shutoff, 1, 0, "", [], NoMigration, "")
  }

  predicate Stands(s: State, h: Host, nextId: int)
  {
    "h" in s.hosts && s.hosts["h"] == h && s.nextDomainId == nextId
  }

  lemma {:induction false} RunMore(s: State, cs: seq<Command>, c: Command)
    ensures Run(s, cs + [c]) == Step(Run(s, cs), c).next
  {
    hide Step;
    assert (cs + [c])[..|cs|] == cs;
  }

  /** One more call about the host that goes through. */
  lemma {:induction false} Calls(cs: seq<Command>, c: Command, h: Host, nextId: int)
    requires Stands(Run(EMPTY, cs), h, nextId) && !c.AddHost? && !c.RemoveHost? && c.host == "h"
    requires Check(Run(EMPTY, cs), c).None?
    ensures Stands(Run(EMPTY, cs + [c]), HostAfter(h, c, nextId), if c.Start? || c.Finish? then nextId + 1 else nextId)
  {
    RunMore(EMPTY, cs, c);
    hide Run, Check, HostAfter;
  }

  lemma {:induction false} RoomWhenIdle(h: Host, d: Domain)
    requires h == Small(h.domains) && forall u :: u in h.domains ==> !Active(h.domains[u])
    requires d.vcpus == 1 && d.memoryKiB == 0
    ensures Room(h, d)
  {
    TotalZero(h.domains, ActiveVCPUs);
    TotalZero(h.domains, ActiveMB);
  }

  lemma {:induction false} AddsSmall()
    ensures Stands(Run(EMPTY, [AddHost("h", Small(map[]))]), Small(map[]), 1)
  {
    assert [AddHost("h", Small(map[]))] == [] + [AddHost("h", Small(map[]))];
    RunMore(EMPTY, [], AddHost("h", Small(map[])));
  }

  /** Another domain is defined and started on a host that is idle. */
  lemma {:induction false} StartsAnother(cs: seq<Command>, domains: map<string, Domain>)
    requires Stands(Run(EMPTY, cs), Small(domains), 1) && forall u :: u in domains ==> !Active(domains[u])
    ensures Stands(Run(EMPTY, cs + [Define("h", One("q"))] + [Start("h", "q")]),
                   Small(domains["q" := One("q").(state := Running, id := 1)]), 2)
  {
    hide Run, Room;
    Calls(cs, Define("h", One("q")), Small(domains), 1);
    var h := Small(domains["q" := One("q")]);
    RoomWhenIdle(h, One("q"));
    Calls(cs + [Define("h", One("q"))], Start("h", "q"), h, 1);
    assert domains["q" := One("q")]["q" := One("q").(state := Running, id := 1)] ==
           domains["q" := One("q").(state := Running, id := 1)];
  }

  /** A placeholder is reserved and stopped, and its room is given to another domain. */
  function StoppedPlaceholder(): seq<Command>
  {
    [AddHost("h", Small(map[]))] + [Prepare("h", One("p"))] + [Destroy("h", "p")]
    + [Define("h", One("q"))] + [Start("h", "q")]
  }

  lemma {:induction false} StoppedPlaceholderState()
    ensures Stands(Run(EMPTY, StoppedPlaceholder()),
                   Small(map["p" := One("p").(migration := Prepared, cookie := "p"),
                             "q" := One("q").(state := Running, id := 1)]), 2)
  {
    hide Run, Room;
    AddsSmall();
    var cs := [AddHost("h", Small(map[]))];
    RoomWhenIdle(Small(map[]), One("p"));
    Calls(cs, Prepare("h", One("p")), Small(map[]), 1);
    cs := cs + [Prepare("h", One("p"))];
    var reserved := Small(map["p" := Placeholder(One("p"))]);
    assert Stands(Run(EMPTY, cs), reserved, 1);
    Calls(cs, Destroy("h", "p"), reserved, 1);
    cs := cs + [Destroy("h", "p")];
    var stopped := map["p" := One("p").(migration := Prepared, cookie := "p")];
    assert Stands(Run(EMPTY, cs), Small(stopped), 1);
    StartsAnother(cs, stopped);
    assert stopped["q" := One("q").(state := Running, id := 1)] ==
           map["p" := One("p").(migration := Prepared, cookie := "p"), "q" := One("q").(state := Running, id := 1)];
  }

  lemma {:induction false} TwoActive(domains: map<string, Domain>, p: string, q: string)
    requires domains.Keys == {p, q} && p != q && Active(domains[p]) && Active(domains[q])
    ensures Total(domains, ActiveVCPUs) == domains[p].vcpus + domains[q].vcpus
  {
    TotalSplit(domains, p, ActiveVCPUs);
    TotalSplit(domains - {p}, q, ActiveVCPUs);
    TotalZero(domains - {p} - {q}, ActiveVCPUs);
  }

  /** Finishing the migration of the stopped placeholder runs two domains on a host with one vCPU. */
  lemma {:induction false} StoppedPlaceholderOverruns()
    ensures
      var s := Run(EMPTY, StoppedPlaceholder() + [Finish("h", "p")]);
      "h" in s.hosts && UsedVCPUs(s.hosts["h"]) == 2 && AvailableVCPUs(s.hosts["h"]) == 1 && !AllWithin(s)
  {
    hide Run, StoppedPlaceholder;
    StoppedPlaceholderState();
    var h := Run(EMPTY, StoppedPlaceholder()).hosts["h"];
    Calls(StoppedPlaceholder(), Finish("h", "p"), h, 2);
    var h' := HostAfter(h, Finish("h", "p"), 2);
    TwoActive(h'.domains, "p", "q");
    assert !Within(h');
  }

  /** Halving the ratio of a host that is full leaves it with less than is in use. */
  lemma {:induction false} LoweredRatioOverruns()
    ensures
      var cs := [AddHost("h", Small(map[]))] + [Define("h", One("q"))] + [Start("h", "q")]
                + [SetRatios("h", Some(0.5), None)];
      var s := Run(EMPTY, cs);
      "h" in s.hosts && UsedVCPUs(s.hosts["h"]) == 1 && AvailableVCPUs(s.hosts["h"]) == 0 && !AllWithin(s)
  {
    hide Run;
    AddsSmall();
    StartsAnother([AddHost("h", Small(map[]))], map[]);
    var cs := [AddHost("h", Small(map[]))] + [Define("h", One("q"))] + [Start("h", "q")];
    var domains := map["q" := One("q").(state := Running, id := 1)];
    Calls(cs, SetRatios("h", Some(0.5), None), Small(domains), 2);
    TotalSplit(domains, "q", ActiveVCPUs);
    TotalZero(domains - {"q"}, ActiveVCPUs);
    assert !Within(Small(domains).(cpuRatio := 0.5));
  }
}
