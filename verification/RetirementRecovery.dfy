/**
  Recovery of one pending retirement as the daemon runs it: a plan read from the durable files, then
  renames and removals in a fixed order.  Every durable write below is one action of the protocol, so
  all that is proved of protocol runs holds of this code.
*/
module RetirementRecovery {
  import opened Common
  import opened RetirementProtocol
  import opened RetirementSafety
  import opened RetirementTheorems
  import Limits = RetirementLimits

  datatype Outcome = Completed | Restored | Superseded | OwnerBusy | CannotPlan

  /** How the live owner answers the handoff. */
  datatype Owner = Detaches | RouteChanged | Fails

  /** One look at the outside world: the session's route, and the native file at the rollback target. */
  datatype Look = Look(routeMatches: bool, targetMatches: bool)
  {
    predicate Good() { routeMatches && targetMatches }
  }

  datatype Plan = Plan(
    acknowledged: bool,
    rejected: bool,
    bindingMatches: bool,
    generation: nat,
    routeMatches: bool,
    targetMatches: bool,
    request: Control)
  {
    predicate RequiresRestore() {
      !acknowledged &&
      (rejected || !bindingMatches || generation == request.generation + 1 || !routeMatches || !targetMatches)
    }
  }

  class SessionStore {
    var place: Place
    var generation: nat
    var checkpoint: nat
    var request: Option<Control>
    var answer: Option<Answer>
    var original: bool
    var retained: bool
    var listed: bool
    var registry: Option<nat>
    var native: Option<nat>

    ghost var start: System       // the protocol state when this run began
    ghost var done: seq<Action>   // the durable writes made so far

    ghost function Files(): Disk
      reads this
    {
      Disk(place, generation, checkpoint, request, answer, original, retained, listed, registry)
    }

    ghost function Machine(): System
      reads this
      requires Legal(start, done)
    {
      After(start, done)
    }

    /** The files are exactly what the protocol says after the writes made so far. */
    ghost predicate Valid()
      reads this
    {
      && Sound(start)
      && Legal(start, done)
      && Machine().disk == Files()
      && Machine().native == native
      && !Machine().noticed
    }

    ghost method Record(a: Action)
      requires Sound(start) && Legal(start, done)
      requires Enabled(Machine(), a) && !a.Compensate?
      modifies this`done
      ensures done == old(done) + [a]
      ensures Legal(start, done)
      ensures Machine() == Apply(old(Machine()), a)
      ensures Sound(Machine())
    {
      RunKeepsSound(start, done);
      StepKeepsSound(Machine(), a);
      Limits.Extend(start, done, a);
      done := done + [a];
    }

    method Prepare(look: Look) returns (plan: Option<Plan>)
      requires Valid() && request.Some?
      ensures plan.Some? <==> Recoverable(Files()) && original != retained
      ensures plan.Some? ==>
        && plan.value.acknowledged == Files().Accepted() && plan.value.rejected == Files().Refused()
        && plan.value.bindingMatches == Files().Bound() && plan.value.generation == generation
        && plan.value.routeMatches == look.routeMatches
        && plan.value.targetMatches == (Files().Accepted() || look.targetMatches)
        && plan.value.request == request.value
    {
      var acknowledged := answer.Some? && !answer.value.rejected;
      var rejected := answer.Some? && answer.value.rejected;
      var bound := generation == request.value.generation && checkpoint == request.value.checkpoint;
      if acknowledged && !bound {
        return None;
      }
      if generation == request.value.generation + 1 {
        if place != Active {
          return None;
        }
      } else if generation != request.value.generation {
        return None;
      }
      if original == retained {
        return None;
      }
      return Some(Plan(acknowledged, rejected, bound, generation, look.routeMatches,
          acknowledged || look.targetMatches, request.value));
    }

    /** A rejection is written only where no answer is. */
    method EnsureRejection()
      requires Valid() && Files().Pending() && !Files().Accepted()
      requires Machine().holder == Free && Plannable(Files())
      modifies this
      ensures Valid() && start == old(start) && native == old(native)
      ensures Files() == old(Files()).(answer := Some(Answer(old(request).value, true)))
      ensures Machine().holder == Restoring(RestoreStage.ReturnSnapshot, old(request).value.generation + 1)
    {
      RunKeepsSound(start, done);
      if answer.Some? {
        Record(ResumeRestore);
      } else {
        Record(Refuse(Recovery));
        answer := Some(Answer(request.value, true));
      }
    }

    // Each of the following makes one durable write.

    method ReturnSnapshot(wanted: nat)
      requires Valid() && Machine().holder == Restoring(RestoreStage.ReturnSnapshot, wanted)
      requires original != retained
      modifies this
      ensures Valid() && start == old(start) && native == old(native)
      ensures Machine().holder == Restoring(RestoreStage.ReturnDirectory, wanted)
      ensures Files() == old(Files()).(original := true, retained := false)
    {
      Record(Proceed);
      if retained {
        original, retained := true, false;
      }
    }

    method ReturnDirectory(wanted: nat)
      requires Valid() && Machine().holder == Restoring(RestoreStage.ReturnDirectory, wanted)
      modifies this
      ensures Valid() && start == old(start) && native == old(native)
      ensures Machine().holder == Restoring(RestoreStage.Republish, wanted)
      ensures Files() == old(Files()).(place := Active)
    {
      Record(Proceed);
      if place != Active {
        place := Active;
      }
    }

    method RepublishState(wanted: nat)
      requires Valid() && Machine().holder == Restoring(RestoreStage.Republish, wanted)
      requires generation == wanted || generation + 1 == wanted
      modifies this
      ensures Valid() && start == old(start) && native == old(native)
      ensures Machine().holder == Restoring(RestoreStage.Upsert, wanted)
      ensures Files() == old(Files()).(generation := wanted, checkpoint := old(checkpoint) + (wanted - old(generation)))
    {
      Record(Proceed);
      if generation + 1 == wanted {
        generation, checkpoint := generation + 1, checkpoint + 1;
      }
    }

    method UpsertEntry(wanted: nat)
      requires Valid() && Machine().holder == Restoring(RestoreStage.Upsert, wanted)
      requires generation == wanted && (registry.Some? ==> listed && registry.value <= generation)
      modifies this
      ensures Valid() && start == old(start) && native == old(native)
      ensures Machine().holder == Restoring(RestoreStage.ClearRestore, wanted)
      ensures Files() == old(Files()).(registry := if listed then Some(generation) else None)
    {
      Record(Proceed);
      if listed {
        registry := Some(generation);
      }
    }

    method RetireDirectory()
      requires Valid() && Machine().holder == Forward(ForwardStage.MoveDirectory)
      modifies this
      ensures Valid() && start == old(start) && native == old(native)
      ensures Machine().holder == Forward(ForwardStage.MoveSnapshot)
      ensures Files() == old(Files()).(place := Retired)
    {
      Record(Proceed);
      if place == Active {
        place := Retired;
      }
    }

    method RetireSnapshot()
      requires Valid() && Machine().holder == Forward(ForwardStage.MoveSnapshot)
      requires original != retained
      modifies this
      ensures Valid() && start == old(start) && native == old(native)
      ensures Machine().holder == Forward(ForwardStage.DropEntry)
      ensures Files() == old(Files()).(original := false, retained := true)
    {
      Record(Proceed);
      if original {
        original, retained := false, true;
      }
    }

    method RemoveEntry()
      requires Valid() && Machine().holder == Forward(ForwardStage.DropEntry)
      modifies this
      ensures Valid() && start == old(start) && native == old(native)
      ensures Machine().holder == Forward(ForwardStage.ClearForward)
      ensures Files() == old(Files()).(registry := None)
    {
      Record(Proceed);
      registry := None;
    }

    /** The request goes first and only with the right answer beside it; the answer goes last. */
    method ClearRequestLast(requirePositive: bool)
      requires Valid()
      requires if requirePositive then Machine().holder == Forward(ClearForward) && Files().Accepted()
               else Machine().holder.Restoring? && Machine().holder.restore == ClearRestore && Files().Refused()
      modifies this
      ensures Valid() && start == old(start) && native == old(native)
      ensures Machine().holder == Free
      ensures Files() == old(Files()).(request := None, answer := None)
    {
      Record(Proceed);
      request := None;
      Record(Proceed);
      answer := None;
    }

    method RestoreManaged()
      requires Valid() && Files().Pending() && !Files().Accepted()
      requires Machine().holder == Free && Plannable(Files())
      requires original != retained && (registry.Some? ==> listed && registry.value <= generation)
      modifies this
      ensures Valid() && start == old(start) && native == old(native)
      ensures Machine().holder == Free
      ensures FullyRestored(Files(), old(request).value.generation + 1)
    {
      var wanted := request.value.generation + 1;
      EnsureRejection();
      ReturnSnapshot(wanted);
      ReturnDirectory(wanted);
      RepublishState(wanted);
      UpsertEntry(wanted);
      ClearRequestLast(false);
    }

    method RetireManaged()
      requires Valid() && Files().Accepted() && Machine().holder == Forward(MoveDirectory)
      requires original != retained
      modifies this
      ensures Valid() && start == old(start) && native == old(native)
      ensures Machine().holder == Free
      ensures FullyRetired(Files())
    {
      RetireDirectory();
      RetireSnapshot();
      RemoveEntry();
      ClearRequestLast(true);
    }

    /**
      Complete or restore one pending retirement.  The outside world is looked at when the plan is made, once more
      before the owner is detached, and the native bytes a last time when the answer is written; `deleted` says that
      a deletion tombstone is there by then.
    */
    method CompleteCanonicalRetirement(planned: Look, again: Look, owner: Owner, deleted: bool)
      returns (outcome: Outcome)
      requires Valid() && request.Some? && Machine().holder == Free
      modifies this
      ensures Valid() && start == old(start) && Machine().holder == Free
      ensures outcome == CannotPlan <==> !Recoverable(old(Files()))
      ensures outcome == CannotPlan || outcome == Superseded || outcome == OwnerBusy ==> Files() == old(Files())
      ensures outcome == Superseded <==> deleted && owner == Detaches && old(MayCommit(planned, again))
      ensures outcome == OwnerBusy <==>
        || (owner != Detaches && Recoverable(old(Files())) && old(Files()).Accepted())
        || (owner == Fails && old(MayCommit(planned, again)))
      ensures outcome == Completed ==> FullyRetired(Files())
      ensures outcome == Restored ==> FullyRestored(Files(), old(request).value.generation + 1)
      ensures outcome == Completed <==>
        && owner == Detaches
        && (|| (Recoverable(old(Files())) && old(Files()).Accepted())
            || (!deleted && old(MayCommit(planned, again)) && old(native) == Some(old(request).value.target)))
    {
      RunKeepsSound(start, done);
      var prepared := Prepare(planned);
      if prepared.None? {
        return CannotPlan;
      }
      if prepared.value.RequiresRestore() {
        RestoreManaged();
        return Restored;
      }
      if !prepared.value.acknowledged {
        outcome := Cutover(again, owner, deleted);
        return;
      }
      if owner != Detaches {
        return OwnerBusy;
      }
      Record(ResumeForward);
      RetireManaged();
      return Completed;
    }

    /** The cutover of an unanswered, bound request. */
    method Cutover(again: Look, owner: Owner, deleted: bool) returns (outcome: Outcome)
      requires Valid() && Machine().holder == Free && request.Some? && answer.None? && Files().Bound()
      requires original != retained && (registry.Some? ==> listed && registry.value <= generation)
      modifies this
      ensures Valid() && start == old(start) && Machine().holder == Free
      ensures outcome == Superseded <==> again.Good() && owner == Detaches && deleted
      ensures outcome == OwnerBusy <==> again.Good() && owner == Fails
      ensures outcome == Superseded || outcome == OwnerBusy ==> Files() == old(Files())
      ensures outcome == Completed <==>
        again.Good() && owner == Detaches && !deleted && old(native) == Some(old(request).value.target)
      ensures outcome == Completed ==> FullyRetired(Files())
      ensures outcome == Restored ==> FullyRestored(Files(), old(request).value.generation + 1)
      ensures outcome != CannotPlan
    {
      var revalidated := Prepare(again);
      if revalidated.value.RequiresRestore() {
        RestoreManaged();
        return Restored;
      }
      if owner == Fails {
        return OwnerBusy;
      }
      if owner == RouteChanged {
        RestoreManaged();
        return Restored;
      }
      if deleted {
        return Superseded;
      }
      if native != Some(request.value.target) {
        RestoreManaged();
        return Restored;
      }
      Record(Accept(Recovery));
      answer := Some(Answer(request.value, false));
      RetireManaged();
      return Completed;
    }

    /** An unanswered request that is bound to the current checkpoint, with both looks in order. */
    ghost predicate MayCommit(planned: Look, again: Look)
      reads this
    {
      request.Some? && answer.None? && Recoverable(Files()) && Files().Bound() && planned.Good() && again.Good()
    }
  }
}
