/** What deleting a clone costs: its parent snapshot, and the volume that was taken of, can never go again. */
module StorageStuck {
  import opened Basics
  import opened StorageModel
  import opened StorageLineage
  import opened StorageMirror

  function LiveClones(s: State, x: string): set<string>
  {
    set id | id in s.volumes && s.volumes[id].parent == x
  }

  /** The snapshot lists more clones than there are. */
  predicate Stuck(s: State, x: string)
  {
    x in s.snapshots && |s.snapshots[x].childClones| > |LiveClones(s, x)|
  }

  lemma {:induction false} ElementsAtMost(xs: seq<string>, part: set<string>)
    requires forall id :: id in part ==> id in xs
    ensures |part| <= |xs|
  {
    if xs == [] {
      assert part == {};
    } else {
      ElementsAtMost(xs[1..], part - {xs[0]});
    }
  }

  lemma {:induction false} FewerElements(part: set<string>, whole: set<string>)
    requires part <= whole
    ensures |part| <= |whole|
  {
    var rest := whole - part;
    assert whole == part + rest;
  }

  lemma {:induction false} RemoveFirstLength(xs: seq<string>, x: string)
    requires x in xs
    ensures |RemoveFirst(xs, x)| == |xs| - 1
  {
    if xs[0] != x {
      RemoveFirstLength(xs[1..], x);
    }
  }

  /** Deleting a clone leaves its parent snapshot stuck. */
  lemma {:induction false} DeletionSticks(s: State, c: Command)
    requires Linked(s) && DeletesClone(s, c)
    ensures Stuck(Step(s, c).next, s.volumes[c.id].parent)
  {
    var x, s' := s.volumes[c.id].parent, Step(s, c).next;
    assert CloneLinked(s, c.id);
    forall id | id in LiveClones(s, x)
      ensures id in s.snapshots[x].childClones
    {
      assert CloneLinked(s, id);
    }
    ElementsAtMost(s.snapshots[x].childClones, LiveClones(s, x));
    assert LiveClones(s', x) == LiveClones(s, x) - {c.id};
  }

  lemma {:induction false} ClonesPut(s: State, s': State, x: string, id: string, v: Volume)
    requires s'.volumes == s.volumes[id := v]
    ensures LiveClones(s', x) == LiveClones(s, x) - {id} + if v.parent == x then {id} else {}
  {
  }

  lemma {:induction false} SameFamilyClones(s: State, s': State, x: string)
    requires SameFamily(s, s')
    ensures LiveClones(s', x) == LiveClones(s, x)
  {
  }

  /** Whatever such a call does, the snapshot keeps its list and gains no clone. */
  lemma {:induction false} GraphCall(s: State, c: Command, x: string)
    requires Blank(c) && Check(s, c).None? && x != "" && x in s.snapshots && s.snapshots[x].childClones != []
    requires c.CreateVolume? || c.DeleteVolume? || c.CreateSnapshot? || c.DeleteSnapshot?
    ensures x in Apply(s, c).snapshots && Apply(s, c).snapshots[x] == s.snapshots[x]
    ensures LiveClones(Apply(s, c), x) <= LiveClones(s, x)
  {
    if c.CreateVolume? {
    } else if c.DeleteVolume? {
    } else if c.CreateSnapshot? {
    } else {
    }
  }

  lemma {:induction false} GraphCallStuck(s: State, c: Command, x: string)
    requires Linked(s) && Blank(c) && Stuck(s, x) && Check(s, c).None?
    requires c.CreateVolume? || c.DeleteVolume? || c.CreateSnapshot? || c.DeleteSnapshot?
    ensures Stuck(Apply(s, c), x) && Apply(s, c).snapshots[x].volume == s.snapshots[x].volume
  {
    assert SnapshotLinked(s, x);
    hide Apply, Check, LiveClones, Linked;
    GraphCall(s, c, x);
    FewerElements(LiveClones(Apply(s, c), x), LiveClones(s, x));
  }

  lemma {:induction false} ClonedGraph(s: State, snap: string, id: string)
    requires Check(s, CloneFromSnapshot(snap, id)).None?
    ensures
      var s' := Apply(s, CloneFromSnapshot(snap, id));
      && snap in s.snapshots && s.snapshots[snap].volume in s.volumes
      && id !in s.volumes && s'.volumes == s.volumes[id := CloneOf(s, snap)] && CloneOf(s, snap).parent == snap
      && s'.snapshots == s.snapshots[snap := s.snapshots[snap].(childClones := s.snapshots[snap].childClones + [id])]
  {
  }

  lemma {:induction false} CloneStuck(s: State, snap: string, id: string, x: string)
    requires Stuck(s, x) && Check(s, CloneFromSnapshot(snap, id)).None?
    ensures
      var s' := Apply(s, CloneFromSnapshot(snap, id));
      Stuck(s', x) && s'.snapshots[x].volume == s.snapshots[x].volume
  {
    hide Apply, Check, CloneOf;
    ClonedGraph(s, snap, id);
    var s' := Apply(s, CloneFromSnapshot(snap, id));
    ClonesPut(s, s', x, id, CloneOf(s, snap));
    assert id !in LiveClones(s, x);
  }

  lemma {:induction false} FlattenedGraph(s: State, op: nat)
    requires Flattens(s, op)
    ensures
      var s', id := FlattenRegion(s, op), s.flattenWorkers[op].volume;
      && s'.volumes == s.volumes[id := Flattened(s.volumes[id])]
      && s'.snapshots == Disowned(s.snapshots, s.volumes[id].parent, id)
  {
    hide Flattened, Disowned;
  }

  lemma {:induction false} FlattenStuck(s: State, op: nat, x: string)
    requires Linked(s) && Stuck(s, x) && Flattens(s, op)
    ensures
      var s' := FlattenRegion(s, op);
      Stuck(s', x) && s'.snapshots[x].volume == s.snapshots[x].volume
  {
    hide FlattenRegion, Linked, RemoveFirst, LiveClones;
    var s', id := FlattenRegion(s, op), s.flattenWorkers[op].volume;
    FlattenedGraph(s, op);
    LinkedClone(s, id, x);
    ClonesPut(s, s', x, id, Flattened(s.volumes[id]));
    if s.volumes[id].parent == x {
      RemoveFirstLength(s.snapshots[x].childClones, id);
    }
  }

  /** A clone is one of the live clones of its parent, which lists it. */
  lemma {:induction false} LinkedClone(s: State, id: string, x: string)
    requires Linked(s) && id in s.volumes && x in s.snapshots
    ensures x != ""
    ensures id in LiveClones(s, x) <==> s.volumes[id].parent == x
    ensures s.volumes[id].parent == x ==> id in s.snapshots[x].childClones
  {
    assert SnapshotLinked(s, x) && CloneLinked(s, id);
  }

  /** No step frees a snapshot that is stuck. */
  lemma {:induction false} StuckStep(s: State, c: Command, x: string)
    requires Linked(s) && Blank(c) && Stuck(s, x)
    ensures Stuck(Step(s, c).next, x) && Step(s, c).next.snapshots[x].volume == s.snapshots[x].volume
  {
    hide Linked, LiveClones;
    if Check(s, c).None? {
      match c
      case CreateVolume(_, _) => GraphCallStuck(s, c, x);
      case DeleteVolume(_) => GraphCallStuck(s, c, x);
      case CreateSnapshot(_, _) => GraphCallStuck(s, c, x);
      case DeleteSnapshot(_) => GraphCallStuck(s, c, x);
      case CloneFromSnapshot(snap, id) => CloneStuck(s, snap, id, x);
      case FlattenStep(op) =>
        if Flattens(s, op) {
          FlattenStuck(s, op, x);
        } else {
          Bystanders(s, c);
          SameFamilyClones(s, Step(s, c).next, x);
        }
      case _ =>
        Bystanders(s, c);
        SameFamilyClones(s, Step(s, c).next, x);
    }
  }

  lemma {:induction false} StuckRun(s: State, cs: seq<Command>, x: string)
    requires Linked(s) && Stuck(s, x) && forall c :: c in cs ==> Blank(c)
    ensures Linked(Run(s, cs)) && Stuck(Run(s, cs), x)
    ensures Run(s, cs).snapshots[x].volume == s.snapshots[x].volume
    decreases |cs|
  {
    hide Step, Linked, Blank, LiveClones;
    if cs != [] {
      assert Blank(cs[0]);
      StuckStep(s, cs[0], x);
      LinkedStep(s, cs[0]);
      StuckRun(Step(s, cs[0]).next, cs[1..], x);
    }
  }

  /** The snapshot is there, refuses to be deleted, and keeps its source volume from being deleted. */
  predicate Immovable(s: State, x: string, source: string)
  {
    && x in s.snapshots && s.snapshots[x].volume == source && source in s.volumes
    && Check(s, DeleteSnapshot(x)) == Some(SnapshotHasClones)
    && (Check(s, DeleteVolume(source)) == Some(VolumeInUse) || Check(s, DeleteVolume(source)) == Some(VolumeHasSnapshots))
  }

  lemma {:induction false} StuckImmovable(s: State, x: string)
    requires Linked(s) && Stuck(s, x)
    ensures Immovable(s, x, s.snapshots[x].volume)
  {
    assert SnapshotLinked(s, x);
  }

  /** Once a clone has been deleted, its parent snapshot and that snapshot's source volume refuse to be deleted
      at every point of every later run, whatever is flattened, deleted or made again under the same ids. */
  lemma {:induction false} StuckForever(cs: seq<Command>, c: Command, more: seq<Command>)
    requires DeletesClone(Run(EMPTY, cs), c)
    requires forall d :: d in cs || d in more ==> Blank(d)
    ensures
      var s := Run(EMPTY, cs);
      var x := s.volumes[c.id].parent;
      x in s.snapshots && Immovable(Run(Step(s, c).next, more), x, s.snapshots[x].volume)
  {
    hide Step, Linked, Blank, LiveClones, Immovable;
    var s := Run(EMPTY, cs);
    NothingDangles(cs);
    DeletedKeeps(s, c);
    DeletionSticks(s, c);
    LinkedStep(s, c);
    StuckRun(Step(s, c).next, more, s.volumes[c.id].parent);
    StuckImmovable(Run(Step(s, c).next, more), s.volumes[c.id].parent);
  }

  lemma {:induction false} DeletedKeeps(s: State, c: Command)
    requires Linked(s) && DeletesClone(s, c)
    ensures Blank(c) && s.volumes[c.id].parent in s.snapshots && Step(s, c).next.snapshots == s.snapshots
  {
    assert CloneLinked(s, c.id);
  }

  /** Where no clone was deleted, a snapshot refuses to be deleted if and only if it has a live clone. */
  lemma {:induction false} RefusedWithClonesIff(s: State, x: string)
    requires Linked(s) && Mirrored(s) && x in s.snapshots
    ensures Check(s, DeleteSnapshot(x)).Some? <==> LiveClones(s, x) != {}
  {
    assert SnapshotLinked(s, x) && ClonesMirrored(s, x);
    if id :| id in LiveClones(s, x) {
      assert CloneLinked(s, id);
    }
    if s.snapshots[x].childClones != [] {
      assert s.snapshots[x].childClones[0] in LiveClones(s, x);
    }
  }
}
