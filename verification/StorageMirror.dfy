/** The clones a snapshot lists against the clones there are: exactly which runs keep the two the same. */
module StorageMirror {
  import opened StorageModel
  import opened StorageLineage

  /** A snapshot lists live clones of its own, each once. */
  predicate ClonesMirrored(s: State, x: string)
    requires x in s.snapshots
  {
    && Distinct(s.snapshots[x].childClones)
    && forall id :: id in s.snapshots[x].childClones ==> id in s.volumes && s.volumes[id].parent == x
  }

  /** The converse of CloneLinked, for every snapshot. */
  predicate Mirrored(s: State)
  {
    forall x :: x in s.snapshots ==> ClonesMirrored(s, x)
  }

  /** Deletes a volume that is still a clone. */
  predicate DeletesClone(s: State, c: Command)
  {
    c.DeleteVolume? && Check(s, c).None? && s.volumes[c.id].parent != ""
  }

  /** The deleted clone stays listed on its parent snapshot. */
  lemma {:induction false} CloneDeletionBreaks(s: State, c: Command)
    requires Linked(s) && DeletesClone(s, c)
    ensures !Mirrored(Step(s, c).next)
  {
    var parent := s.volumes[c.id].parent;
    assert CloneLinked(s, c.id);
    assert !ClonesMirrored(Step(s, c).next, parent);
  }

  lemma {:induction false} SameFamilyMirrored(s: State, s': State)
    requires Mirrored(s) && SameFamily(s, s')
    ensures Mirrored(s')
  {
    forall x | x in s'.snapshots
      ensures ClonesMirrored(s', x)
    {
      assert ClonesMirrored(s, x);
    }
  }

  lemma {:induction false} GraphCallMirrored(s: State, c: Command)
    requires Linked(s) && Mirrored(s) && Blank(c) && Check(s, c).None? && !DeletesClone(s, c)
    requires c.CreateVolume? || c.DeleteVolume? || c.CreateSnapshot? || c.DeleteSnapshot?
    ensures Mirrored(Apply(s, c))
  {
    var s' := Apply(s, c);
    forall x | x in s'.snapshots
      ensures ClonesMirrored(s', x)
    {
      if x in s.snapshots {
        assert ClonesMirrored(s, x) && SnapshotLinked(s, x);
      }
    }
  }

  lemma {:induction false} CloneMirrored(s: State, snap: string, id: string)
    requires Mirrored(s) && Check(s, CloneFromSnapshot(snap, id)).None?
    ensures Mirrored(Apply(s, CloneFromSnapshot(snap, id)))
  {
    var s' := Apply(s, CloneFromSnapshot(snap, id));
    forall x | x in s'.snapshots
      ensures ClonesMirrored(s', x)
    {
      assert ClonesMirrored(s, x);
    }
  }

  lemma {:induction false} FlattenMirrored(s: State, op: nat)
    requires Linked(s) && Mirrored(s) && Flattens(s, op)
    ensures Mirrored(FlattenRegion(s, op))
  {
    var s', id := FlattenRegion(s, op), s.flattenWorkers[op].volume;
    var parent := s.volumes[id].parent;
    assert CloneLinked(s, id);
    if parent in s.snapshots {
      assert SnapshotLinked(s, parent) && ClonesMirrored(s, parent);
      RemoveFirstDistinct(s.snapshots[parent].childClones, id);
    }
    forall x | x in s'.snapshots
      ensures ClonesMirrored(s', x)
    {
      assert ClonesMirrored(s, x);
    }
  }

  /** Every call but the deletion of a clone keeps the two the same. */
  lemma {:induction false} MirroredStep(s: State, c: Command)
    requires Linked(s) && Mirrored(s) && Blank(c) && !DeletesClone(s, c)
    ensures Mirrored(Step(s, c).next)
  {
    hide Mirrored, Linked;
    if Check(s, c).None? {
      match c
      case CreateVolume(_, _) => GraphCallMirrored(s, c);
      case DeleteVolume(_) => GraphCallMirrored(s, c);
      case CreateSnapshot(_, _) => GraphCallMirrored(s, c);
      case DeleteSnapshot(_) => GraphCallMirrored(s, c);
      case CloneFromSnapshot(snap, id) => CloneMirrored(s, snap, id);
      case FlattenStep(op) =>
        if Flattens(s, op) {
          FlattenMirrored(s, op);
        } else {
          Bystanders(s, c);
          SameFamilyMirrored(s, Step(s, c).next);
        }
      case _ =>
        Bystanders(s, c);
        SameFamilyMirrored(s, Step(s, c).next);
    }
  }

  ghost predicate StaysMirrored(s: State, cs: seq<Command>)
    decreases |cs|
  {
    Mirrored(s) && (cs == [] || StaysMirrored(Step(s, cs[0]).next, cs[1..]))
  }

  ghost predicate NeverDeletesClone(s: State, cs: seq<Command>)
    decreases |cs|
  {
    cs == [] || (!DeletesClone(s, cs[0]) && NeverDeletesClone(Step(s, cs[0]).next, cs[1..]))
  }

  lemma {:induction false} StaysMirroredFrom(s: State, cs: seq<Command>)
    requires Linked(s) && Mirrored(s) && forall c :: c in cs ==> Blank(c)
    ensures StaysMirrored(s, cs) <==> NeverDeletesClone(s, cs)
    decreases |cs|
  {
    hide Step, Linked, Mirrored, DeletesClone, Blank;
    if cs != [] {
      var c := cs[0];
      assert Blank(c);
      if DeletesClone(s, c) {
        CloneDeletionBreaks(s, c);
      } else {
        LinkedStep(s, c);
        MirroredStep(s, c);
        StaysMirroredFrom(Step(s, c).next, cs[1..]);
      }
    }
  }

  /** Exactly when every snapshot lists nothing but its own live clones, each once, at every point of a
      run: when no volume is deleted while it is a clone. */
  lemma {:induction false} MirroredIff(cs: seq<Command>)
    requires forall c :: c in cs ==> Blank(c)
    ensures StaysMirrored(EMPTY, cs) <==> NeverDeletesClone(EMPTY, cs)
  {
    StaysMirroredFrom(EMPTY, cs);
  }
}
