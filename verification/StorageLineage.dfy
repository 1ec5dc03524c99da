/** The snapshot and clone graph over whole runs: nothing dangles and clone ancestry ends. */
module StorageLineage {
  import opened StorageModel

  /** No snapshot is listed twice. */
  predicate Distinct(xs: seq<string>)
  {
    forall i, j :: 0 <= i < j < |xs| ==> xs[i] != xs[j]
  }

  /** A clone's parent snapshot exists and lists the clone. */
  predicate CloneLinked(s: State, id: string)
    requires id in s.volumes
  {
    var parent := s.volumes[id].parent;
    parent != "" ==> parent in s.snapshots && id in s.snapshots[parent].childClones
  }

  /** A snapshot's source volume exists and lists the snapshot. */
  predicate SnapshotLinked(s: State, x: string)
    requires x in s.snapshots
  {
    x != "" && s.snapshots[x].volume in s.volumes && x in s.volumes[s.snapshots[x].volume].snapshots
  }

  /** A volume lists live snapshots of its own, each once. */
  predicate ListLinked(s: State, id: string)
    requires id in s.volumes
  {
    && Distinct(s.volumes[id].snapshots)
    && forall x :: x in s.volumes[id].snapshots ==> x in s.snapshots && s.snapshots[x].volume == id
  }

  predicate Linked(s: State)
  {
    && (forall id :: id in s.volumes ==> CloneLinked(s, id) && ListLinked(s, id))
    && (forall x :: x in s.snapshots ==> SnapshotLinked(s, x))
  }

  /** Volumes are created without snapshots and without a parent, as the request handler does. */
  predicate Blank(c: Command)
  {
    c.CreateVolume? ==> c.v.snapshots == [] && c.v.parent == ""
  }

  /** The step leaves the graph alone. */
  predicate SameFamily(s: State, s': State)
  {
    && s'.snapshots == s.snapshots
    && s'.volumes.Keys == s.volumes.Keys
    && forall id :: id in s.volumes ==>
         s'.volumes[id].snapshots == s.volumes[id].snapshots && s'.volumes[id].parent == s.volumes[id].parent
  }

  lemma {:induction false} SameFamilyLinked(s: State, s': State)
    requires Linked(s) && SameFamily(s, s')
    ensures Linked(s')
  {
    forall id | id in s'.volumes
      ensures CloneLinked(s', id) && ListLinked(s', id)
    {
      assert CloneLinked(s, id) && ListLinked(s, id);
    }
    forall x | x in s'.snapshots
      ensures SnapshotLinked(s', x)
    {
      assert SnapshotLinked(s, x);
    }
  }

  lemma {:induction false} Bystanders(s: State, c: Command)
    requires !c.CreateVolume? && !c.DeleteVolume? && !c.CreateSnapshot? && !c.DeleteSnapshot?
    requires !c.CloneFromSnapshot? && !(c.FlattenStep? && Flattens(s, c.worker))
    ensures SameFamily(s, Step(s, c).next)
  {
    if Check(s, c).None? {
      if c.MigrationStep? {
        if Moves(s, c.worker) {
        } else {
        }
      } else {
      }
    }
  }

  lemma {:induction false} RemoveFirstDistinct(xs: seq<string>, x: string)
    requires Distinct(xs)
    ensures Distinct(RemoveFirst(xs, x)) && x !in RemoveFirst(xs, x)
  {
    if xs != [] {
      if xs[0] == x {
        assert forall i :: 0 < i < |xs| ==> xs[i] != xs[0];
      } else {
        RemoveFirstDistinct(xs[1..], x);
        assert xs[0] !in xs[1..];
      }
    }
  }

  lemma {:induction false} CreateVolumeLinked(s: State, id: string, v: Volume)
    requires Linked(s) && Blank(CreateVolume(id, v)) && Check(s, CreateVolume(id, v)).None?
    ensures Linked(Apply(s, CreateVolume(id, v)))
  {
    var s' := Apply(s, CreateVolume(id, v));
    forall x | x in s'.snapshots
      ensures SnapshotLinked(s', x)
    {
      assert SnapshotLinked(s, x);
    }
    forall y | y in s'.volumes
      ensures CloneLinked(s', y) && ListLinked(s', y)
    {
      if y != id {
        assert CloneLinked(s, y) && ListLinked(s, y);
      }
    }
  }

  lemma {:induction false} DeleteVolumeLinked(s: State, id: string)
    requires Linked(s) && Check(s, DeleteVolume(id)).None?
    ensures Linked(Apply(s, DeleteVolume(id)))
  {
    var s' := Apply(s, DeleteVolume(id));
    forall x | x in s'.snapshots
      ensures SnapshotLinked(s', x)
    {
      assert SnapshotLinked(s, x);
    }
    forall y | y in s'.volumes
      ensures CloneLinked(s', y) && ListLinked(s', y)
    {
      assert CloneLinked(s, y) && ListLinked(s, y);
    }
  }

  lemma {:induction false} CreateSnapshotLinked(s: State, id: string, snap: string)
    requires Linked(s) && Check(s, CreateSnapshot(id, snap)).None?
    ensures Linked(Apply(s, CreateSnapshot(id, snap)))
  {
    var s' := Apply(s, CreateSnapshot(id, snap));
    forall x | x in s'.snapshots
      ensures SnapshotLinked(s', x)
    {
      if x == snap {
        assert s'.volumes[id].snapshots[|s.volumes[id].snapshots|] == snap;
      } else {
        assert SnapshotLinked(s, x);
      }
    }
    forall y | y in s'.volumes
      ensures CloneLinked(s', y) && ListLinked(s', y)
    {
      assert CloneLinked(s, y) && ListLinked(s, y);
    }
  }

  lemma {:induction false} DeleteSnapshotLinked(s: State, snap: string)
    requires Linked(s) && Check(s, DeleteSnapshot(snap)).None?
    ensures Linked(Apply(s, DeleteSnapshot(snap)))
  {
    var s' := Apply(s, DeleteSnapshot(snap));
    var home := s.snapshots[snap].volume;
    assert SnapshotLinked(s, snap) && ListLinked(s, home);
    RemoveFirstDistinct(s.volumes[home].snapshots, snap);
    forall x | x in s'.snapshots
      ensures SnapshotLinked(s', x)
    {
      assert SnapshotLinked(s, x);
    }
    forall y | y in s'.volumes
      ensures CloneLinked(s', y) && ListLinked(s', y)
    {
      assert CloneLinked(s, y) && ListLinked(s, y);
    }
  }

  lemma {:induction false} CloneFromSnapshotLinked(s: State, snap: string, id: string)
    requires Linked(s) && Check(s, CloneFromSnapshot(snap, id)).None?
    ensures Linked(Apply(s, CloneFromSnapshot(snap, id)))
  {
    var s' := Apply(s, CloneFromSnapshot(snap, id));
    assert SnapshotLinked(s, snap);
    forall x | x in s'.snapshots
      ensures SnapshotLinked(s', x)
    {
      assert SnapshotLinked(s, x);
    }
    forall y | y in s'.volumes
      ensures CloneLinked(s', y) && ListLinked(s', y)
    {
      if y == id {
        assert s'.snapshots[snap].childClones[|s.snapshots[snap].childClones|] == id;
      } else {
        assert CloneLinked(s, y) && ListLinked(s, y);
      }
    }
  }

  lemma {:induction false} FlattenLinked(s: State, op: nat)
    requires Linked(s) && Flattens(s, op)
    ensures Linked(FlattenRegion(s, op))
  {
    var s' := FlattenRegion(s, op);
    var id := s.flattenWorkers[op].volume;
    forall x | x in s'.snapshots
      ensures SnapshotLinked(s', x)
    {
      assert SnapshotLinked(s, x);
    }
    forall y | y in s'.volumes
      ensures CloneLinked(s', y) && ListLinked(s', y)
    {
      assert CloneLinked(s, y) && ListLinked(s, y);
    }
  }

  lemma {:induction false} LinkedStep(s: State, c: Command)
    requires Linked(s) && Blank(c)
    ensures Linked(Step(s, c).next)
  {
    if Check(s, c).None? {
      match c
      case CreateVolume(id, v) => CreateVolumeLinked(s, id, v);
      case DeleteVolume(id) => DeleteVolumeLinked(s, id);
      case CreateSnapshot(id, snap) => CreateSnapshotLinked(s, id, snap);
      case DeleteSnapshot(snap) => DeleteSnapshotLinked(s, snap);
      case CloneFromSnapshot(snap, id) => CloneFromSnapshotLinked(s, snap, id);
      case FlattenStep(op) =>
        if Flattens(s, op) {
          FlattenLinked(s, op);
        } else {
          Bystanders(s, c);
          SameFamilyLinked(s, Step(s, c).next);
        }
      case _ =>
        Bystanders(s, c);
        SameFamilyLinked(s, Step(s, c).next);
    }
  }

  // ---- Ancestry --------------------------------------------------------------------------------

  predicate IsClone(s: State, id: string)
  {
    id in s.volumes && s.volumes[id].parent in s.snapshots && s.volumes[id].parent != ""
  }

  /** The volume a clone's parent snapshot was taken from. */
  function SourceOf(s: State, id: string): string
    requires IsClone(s, id)
  {
    s.snapshots[s.volumes[id].parent].volume
  }

  /** Creation times: every live volume was created before `now`, and every clone after its source. */
  ghost predicate Born(s: State, birth: map<string, nat>, now: nat)
  {
    && (forall id :: id in s.volumes ==> id in birth && birth[id] < now)
    && (forall id :: IsClone(s, id) ==> SourceOf(s, id) in birth && birth[SourceOf(s, id)] < birth[id])
  }

  /** Whether the step creates volume `id`. */
  predicate Creates(s: State, c: Command, id: string)
  {
    (c.CreateVolume? || c.CloneFromSnapshot?) && Check(s, c).None? && id == c.id
  }

  lemma {:induction false} VolumesStep(s: State, c: Command, id: string)
    requires id in Step(s, c).next.volumes && !Creates(s, c, id)
    ensures id in s.volumes
  {
    if Check(s, c).None? {
      if c.MigrationStep? {
      } else if c.FlattenStep? {
      } else {
      }
    }
  }

  lemma {:induction false} SourceUnderDeletion(s: State, c: Command, id: string)
    requires Linked(s) && Check(s, c).None? && IsClone(Apply(s, c), id)
    requires c.DeleteVolume? || c.DeleteSnapshot? || (c.FlattenStep? && Flattens(s, c.worker))
    ensures IsClone(s, id) && SourceOf(Apply(s, c), id) == SourceOf(s, id)
  {
    if c.DeleteVolume? {
    } else if c.DeleteSnapshot? {
    } else {
    }
  }

  lemma {:induction false} SourceUnderCreation(s: State, c: Command, id: string)
    requires Linked(s) && Check(s, c).None? && IsClone(Apply(s, c), id) && !Creates(s, c, id)
    requires c.CreateVolume? || c.CreateSnapshot? || c.CloneFromSnapshot?
    ensures IsClone(s, id) && SourceOf(Apply(s, c), id) == SourceOf(s, id)
  {
    VolumesStep(s, c, id);
    assert CloneLinked(s, id);
    if c.CreateVolume? {
    } else if c.CreateSnapshot? {
    } else {
    }
  }

  /** A clone keeps its source for as long as it is a clone: neither a snapshot with a live clone nor a
      volume with a live snapshot can go away and have its id used again. */
  lemma {:induction false} SourceStep(s: State, c: Command, id: string)
    requires Linked(s) && IsClone(Step(s, c).next, id) && !Creates(s, c, id)
    ensures IsClone(s, id) && SourceOf(Step(s, c).next, id) == SourceOf(s, id)
    ensures !Creates(s, c, SourceOf(s, id))
  {
    if Check(s, c).None? {
      if c.DeleteVolume? || c.DeleteSnapshot? || (c.FlattenStep? && Flattens(s, c.worker)) {
        SourceUnderDeletion(s, c, id);
      } else if c.CreateVolume? || c.CreateSnapshot? || c.CloneFromSnapshot? {
        SourceUnderCreation(s, c, id);
      } else {
        Bystanders(s, c);
      }
    }
    assert SnapshotLinked(s, s.volumes[id].parent);
  }

  /** Creation times after a step: an id that is deleted and used again gets a new one. */
  function BirthAfter(s: State, c: Command, birth: map<string, nat>, now: nat): map<string, nat>
  {
    if (c.CreateVolume? || c.CloneFromSnapshot?) && Check(s, c).None? then birth[c.id := now] else birth
  }

  /** A new volume has no parent, or a source that is older. */
  lemma {:induction false} NewCloneStep(s: State, c: Command, id: string)
    requires Linked(s) && Blank(c) && Creates(s, c, id) && IsClone(Step(s, c).next, id)
    ensures SourceOf(Step(s, c).next, id) in s.volumes
  {
    if c.CloneFromSnapshot? {
      assert SnapshotLinked(s, c.snapshotId);
    }
  }

  lemma {:induction false} BornStep(s: State, c: Command, birth: map<string, nat>, now: nat)
    requires Linked(s) && Blank(c) && Born(s, birth, now)
    ensures Born(Step(s, c).next, BirthAfter(s, c, birth, now), now + 1)
  {
    var s', birth' := Step(s, c).next, BirthAfter(s, c, birth, now);
    forall id | id in s'.volumes
      ensures id in birth' && birth'[id] < now + 1
    {
      if !Creates(s, c, id) {
        VolumesStep(s, c, id);
      }
    }
    forall id | IsClone(s', id)
      ensures SourceOf(s', id) in birth' && birth'[SourceOf(s', id)] < birth'[id]
    {
      if Creates(s, c, id) {
        NewCloneStep(s, c, id);
        assert id !in s.volumes;
      } else {
        SourceStep(s, c, id);
      }
    }
  }

  lemma {:induction false} LineageFrom(s: State, cs: seq<Command>, birth: map<string, nat>, now: nat)
    returns (birth': map<string, nat>)
    requires Linked(s) && Born(s, birth, now)
    requires forall c :: c in cs ==> Blank(c)
    ensures Linked(Run(s, cs)) && Born(Run(s, cs), birth', now + |cs|)
    decreases |cs|
  {
    birth' := birth;
    if cs != [] {
      var c := cs[0];
      assert Blank(c);
      LinkedStep(s, c);
      BornStep(s, c, birth, now);
      birth' := LineageFrom(Step(s, c).next, cs[1..], BirthAfter(s, c, birth, now), now + 1);
    }
  }

  /** No dangling dependency, in every interleaving of API calls and worker steps. */
  lemma {:induction false} NothingDangles(cs: seq<Command>)
    requires forall c :: c in cs ==> Blank(c)
    ensures Linked(Run(EMPTY, cs))
  {
    var _ := LineageFrom(EMPTY, cs, map[], 0);
  }

  /** A walk from clone to source. */
  ghost predicate Ancestry(s: State, path: seq<string>)
  {
    && |path| > 0
    && (forall i :: 0 <= i < |path| ==> path[i] in s.volumes)
    && (forall i :: 0 <= i < |path| - 1 ==> IsClone(s, path[i]) && path[i + 1] == SourceOf(s, path[i]))
  }

  /** Births fall along a walk. */
  lemma {:induction false} BirthsFall(s: State, path: seq<string>, birth: map<string, nat>, now: nat)
    requires Born(s, birth, now) && Ancestry(s, path) && |path| > 1
    ensures birth[path[|path| - 1]] < birth[path[0]]
  {
    var init := path[..|path| - 1];
    assert IsClone(s, init[|init| - 1]) && path[|path| - 1] == SourceOf(s, init[|init| - 1]);
    if |init| > 1 {
      forall i | 0 <= i < |init| - 1
        ensures IsClone(s, init[i]) && init[i + 1] == SourceOf(s, init[i])
      {
        assert IsClone(s, path[i]) && path[i + 1] == SourceOf(s, path[i]);
      }
      BirthsFall(s, init, birth, now);
    }
  }

  lemma {:induction false} WalkToRoot(s: State, id: string, birth: map<string, nat>, now: nat)
    returns (path: seq<string>)
    requires Linked(s) && Born(s, birth, now) && id in s.volumes
    ensures Ancestry(s, path) && path[0] == id && s.volumes[path[|path| - 1]].parent == ""
    decreases birth[id]
  {
    assert CloneLinked(s, id);
    if s.volumes[id].parent == "" {
      path := [id];
    } else {
      assert SnapshotLinked(s, s.volumes[id].parent);
      var up := SourceOf(s, id);
      assert IsClone(s, id);
      var rest := WalkToRoot(s, up, birth, now);
      path := [id] + rest;
      forall i | 0 <= i < |path| - 1
        ensures IsClone(s, path[i]) && path[i + 1] == SourceOf(s, path[i])
      {
        if i > 0 {
          assert path[i] == rest[i - 1] && path[i + 1] == rest[i];
          assert IsClone(s, rest[i - 1]) && rest[i - 1 + 1] == SourceOf(s, rest[i - 1]);
        }
      }
    }
  }

  /** Clone ancestry is acyclic: in every run, even when ids are deleted and used again, the walk from any
      volume reaches one that is not a clone, and no walk comes back to where it started. */
  lemma {:induction false} AncestryEnds(cs: seq<Command>, id: string)
    requires forall c :: c in cs ==> Blank(c)
    requires id in Run(EMPTY, cs).volumes
    ensures var s := Run(EMPTY, cs);
            exists path :: Ancestry(s, path) && path[0] == id && s.volumes[path[|path| - 1]].parent == ""
    ensures forall path :: Ancestry(Run(EMPTY, cs), path) && |path| > 1 ==> path[|path| - 1] != path[0]
  {
    var s := Run(EMPTY, cs);
    var birth := LineageFrom(EMPTY, cs, map[], 0);
    var walk := WalkToRoot(s, id, birth, |cs|);
    forall path | Ancestry(s, path) && |path| > 1
      ensures path[|path| - 1] != path[0]
    {
      BirthsFall(s, path, birth, |cs|);
    }
  }
}
