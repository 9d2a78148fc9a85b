/**
  Taking a rollout under management in the canonical namespace: the source is retained as a hidden snapshot, the
  managed state is published, the daemon acknowledges the mount, and only then the source is removed.  `writes` is
  the number of durable writes the process still makes before it dies.  A native writer may write into the rollout
  in between; the snapshot is a hard link where that is possible, so it may see those writes too.
*/
module Migration {
  import opened Common

  type Content = seq<int>

  datatype Outcome = Done | Refused | Died

  /** What a copy holds when its writer dies. */
  function Torn(from: Content, length: nat): Content {
    if length <= |from| then from[..length] else from
  }

  /**
    What the surroundings answer during one migration.  `early` and `late` are what a native writer puts into the
    rollout after the snapshot is staged, and just before the source would be removed.
  */
  datatype Surroundings = Surroundings(
    budget: bool, linkable: bool, copyWorks: bool, opens: bool, acknowledges: bool, routeKept: bool,
    targetMatches: bool, writerIdle: bool, targetStillMatches: bool, routeStillKept: bool,
    early: Option<Content>, late: Option<Content>)
  {
    predicate Good() {
      && budget && (linkable || copyWorks) && opens && acknowledges && routeKept && targetMatches && writerIdle
      && targetStillMatches && routeStillKept && early.None? && late.None?
    }

    /** Every check of a migration passes once the snapshot is staged. */
    predicate Passes() {
      && opens && acknowledges && routeKept && targetMatches && writerIdle && targetStillMatches && routeStillKept
    }

    predicate Quiet() {
      early.None? && late.None?
    }

    /** The snapshot has to be copied, and all goes well until the target is looked at again. */
    predicate FailsLate() {
      && budget && !linkable && copyWorks && opens && acknowledges && routeKept && targetMatches && writerIdle
      && !targetStillMatches && early.None? && late.None?
    }
  }

  /**
    The owner handoff: no daemon here, the owner's route has moved, a failure, or the commit runs, after a native
    writer may have written and a deletion tombstone may have appeared.
  */
  datatype Handoff =
    | Absent | RouteMoved | Fails
    | Runs(deleted: bool, bound: bool, routed: bool, written: Option<Content>)

  datatype Attempt =
    | Migration(writes: nat, s: Surroundings, torn: nat)
    | Recovery(writes: nat, deleted: bool, leased: bool, untouched: bool, handoff: Handoff)
    | NativeWrite(writes: nat, content: Content)
    | Refold(writes: nat, restores: nat)

  class Rollout {
    const mark: Content -> nat       // size and digest
    var folded: nat                  // those of the bytes that the current fold restores to
    var verified: nat                // those of the bytes that the last migration verified
    var source: Option<Content>
    var retained: Option<Content>
    var retired: Option<Content>
    var linked: bool                 // the snapshot is the same file as the source
    var managed: bool                // the managed state is published
    var acknowledged: bool           // the daemon serves it
    var registered: bool             // and has entered it in the registry
    var request: bool                // a retirement request is pending
    var answer: Option<bool>         // and its answer: accepted or not
    var writes: nat
    ghost var latest: Content        // what was last written into the rollout

    constructor (mark: Content -> nat, source: Content, writes: nat)
      ensures this.mark == mark && folded == verified == mark(source) && this.source == Some(source)
      ensures latest == source && Safe()
      ensures retained.None? && retired.None? && !linked && !managed && !acknowledged && !registered
      ensures !request && answer.None?
      ensures this.writes == writes
    {
      this.mark, verified, this.source, this.writes, latest := mark, mark(source), Some(source), writes, source;
      retained, retired, linked, managed, acknowledged, request := None, None, false, false, false, false;
      folded, registered, answer := mark(source), false, None;
    }

    predicate Matches(place: Option<Content>)
      reads this
    {
      place.Some? && mark(place.value) == verified
    }

    /** The source is what the current fold restores to. */
    predicate Eligible()
      reads this
    {
      source.Some? && mark(source.value) == folded
    }

    /** The verified bytes are in at least one of the three places. */
    ghost predicate Held()
      reads this
    {
      Matches(source) || Matches(retained) || Matches(retired)
    }

    /** What was last written is still there, or it is the verified bytes and they are held. */
    ghost predicate Kept()
      reads this
    {
      source == Some(latest) || (mark(latest) == verified && Held())
    }

    /** A source that is gone was acknowledged, and its snapshot is there, retained or retired. */
    ghost predicate Covered()
      reads this
    {
      source.None? ==> acknowledged && !linked && mark(latest) == verified && (Matches(retained) || Matches(retired))
    }

    /** Outside management the source is there: what was last written, or the verified bytes in its place. */
    ghost predicate Native()
      reads this
    {
      !managed ==> source == Some(latest) || (mark(latest) == verified && Matches(source))
    }

    ghost predicate Safe()
      reads this
      ensures Safe() ==> Preserved()
      ensures Safe() && mark(latest) == verified ==> Held()
    {
      Kept() && Covered() && Native()
    }

    /** Whatever was verified in the meantime, one of the three places has what was last written. */
    ghost predicate Preserved()
      reads this
    {
      || (source.Some? && mark(source.value) == mark(latest))
      || (retained.Some? && mark(retained.value) == mark(latest))
      || (retired.Some? && mark(retired.value) == mark(latest))
    }

    /** A native writer replaces the bytes of the rollout, and with them those of a linked snapshot. */
    method Write(content: Content)
      requires Safe()
      modifies `source, `retained, `retired, `latest
      ensures Safe() && (source.Some? <==> old(source).Some?)
      ensures old(source).Some? ==> source == Some(content) && latest == content
      ensures old(source).None? ==> unchanged(this)
      ensures !linked ==> retained == old(retained) && retired == old(retired)
      ensures old(source).Some? && linked ==>
                && retained == (if old(retained).Some? then Some(content) else None)
                && retired == (if old(retired).Some? then Some(content) else None)
    {
      if source.Some? {
        source, latest := Some(content), content;
        if linked && retained.Some? {
          retained := Some(content);
        }
        if linked && retired.Some? {
          retired := Some(content);
        }
      }
    }

    /** Count one durable write; false when the process dies instead. */
    method Lives() returns (alive: bool)
      modifies `writes
      ensures alive <==> old(writes) > 0
      ensures writes == if alive then old(writes) - 1 else 0
    {
      alive := writes > 0;
      if alive {
        writes := writes - 1;
      }
    }

    /**
      A copy is not atomic: a process that dies after creating the file leaves its first `torn` bytes.
    */
    method Copy(from: Content, works: bool, torn: nat) returns (r: Outcome, copy: Option<Content>)
      modifies `writes
      ensures r == Done ==> copy == Some(from)
      ensures r == Refused ==> copy == None && !works
      ensures r == Died ==> copy == None || copy == Some(Torn(from, torn))
      ensures old(writes) >= 2 ==> r == (if works then Done else Refused) && writes == old(writes) - 2
      ensures old(writes) == 1 ==> r == Died && copy == Some(Torn(from, torn))
    {
      var created := Lives();
      if !created {
        return Died, None;
      }
      var filled := Lives();
      if !filled {
        return Died, Some(Torn(from, torn));
      }
      if !works {
        return Refused, None;
      }
      return Done, Some(from);
    }

    /**
      Stage the snapshot.  A matching one that is already there is this step done; any other file is refused, also
      one that an earlier torn copy left.
    */
    method Retain(s: Surroundings, torn: nat) returns (r: Outcome)
      requires Safe()
      modifies `retained, `linked, `writes
      ensures Safe()
      ensures r == Done ==> Matches(source) && Matches(retained)
      ensures r == Refused ==> retained == old(retained) && linked == old(linked)
      ensures old(retained).Some? ==>
                retained == old(retained) && linked == old(linked) && writes == old(writes) && r != Died
      ensures retained == old(retained) || retained == source ||
              (!s.linkable && source.Some? && retained == Some(Torn(source.value, torn)) && r == Died)
      ensures Matches(source) && s.budget && (old(retained).None? || Matches(retained)) &&
              (s.linkable || s.copyWorks) ==>
                old(writes) >= 2 ==> r == Done && writes >= old(writes) - 2
      ensures Matches(source) && s.budget && !s.linkable && s.copyWorks && old(retained).None? && old(writes) >= 2 ==>
                r == Done && writes == old(writes) - 2 && retained == source && linked == old(linked)
      ensures old(retained).None? && s.linkable && r == Done ==> retained == source && linked
      ensures old(writes) >= 2 ==> r != Died && writes >= old(writes) - 2
      ensures old(writes) >= 2 ==>
                (r == Done <==>
                  && Matches(source) && s.budget
                  && (if old(retained).Some? then Matches(retained) else s.linkable || s.copyWorks))
      ensures old(retained).Some? && s.budget ==> r == if Matches(source) && Matches(retained) then Done else Refused
      ensures Matches(source) && s.budget && !s.linkable && old(retained).None? && old(writes) == 1 ==>
                r == Died && retained == Some(Torn(source.value, torn)) && linked == old(linked)
    {
      if !Matches(source) || !s.budget {
        return Refused;
      }
      if retained.Some? {
        return if Matches(retained) then Done else Refused;
      }
      if s.linkable {
        var made := Lives();
        if !made {
          return Died;
        }
        retained := source;
        linked := true;
        return Done;
      }
      r, retained := Copy(source.value, s.copyWorks, torn);
    }

    /** Remove the source, if it and the snapshot still match. */
    method Finalize() returns (r: Outcome)
      requires Safe()
      modifies `source, `linked, `writes
      ensures acknowledged || r != Done ==> Kept() && Covered()
      ensures (acknowledged && managed) || r != Done ==> Safe()
      ensures r != Done ==> source == old(source) && linked == old(linked)
      ensures r == Done ==> old(Matches(source)) && source == None && Matches(retained)
      ensures r == Refused <==> !old(Matches(source)) || !Matches(retained)
      ensures r == Refused ==> writes == old(writes)
      ensures old(Matches(source)) && Matches(retained) && old(writes) > 0 ==>
                r == Done && writes == old(writes) - 1 && !linked
    {
      if !Matches(source) || !Matches(retained) {
        return Refused;
      }
      var removed := Lives();
      if !removed {
        return Died;
      }
      source, linked := None, false;
      return Done;
    }

    /** Put the source back from the snapshot, keeping the snapshot. */
    method Preserve(s: Surroundings, torn: nat) returns (r: Outcome)
      requires Safe()
      modifies `source, `linked, `writes
      ensures Safe()
      ensures old(source).Some? ==> source == old(source) && linked == old(linked)
      ensures r == Done ==> retained.Some? && source.Some? && mark(source.value) == mark(retained.value)
      ensures r == Refused ==> source == old(source)
      ensures source == old(source) || source == retained ||
              (!s.linkable && retained.Some? && source == Some(Torn(retained.value, torn)) && r == Died)
      ensures old(source).Some? && retained.Some? ==>
                r == if mark(source.value) == mark(retained.value) then Done else Refused
      ensures old(source).None? && retained.Some? && (s.linkable || s.copyWorks) && old(writes) >= 2 ==>
                r == Done && source == retained && (linked <==> s.linkable || old(linked))
      ensures old(source).Some? || old(writes) >= 2 ==> r != Died
      ensures old(source).None? && retained.Some? && !s.linkable && old(writes) == 1 ==>
                r == Died && source == Some(Torn(retained.value, torn)) && linked == old(linked)
    {
      if retained.None? {
        return Refused;
      }
      if source.Some? {
        return if mark(source.value) == mark(retained.value) then Done else Refused;
      }
      if s.linkable {
        var made := Lives();
        if !made {
          return Died;
        }
        source, linked := retained, true;
        return Done;
      }
      r, source := Copy(retained.value, s.copyWorks, torn);
    }

    /** Give up: both the native and the managed evidence are kept. */
    method Rollback(s: Surroundings, torn: nat) returns (r: Outcome)
      requires Safe()
      modifies `source, `linked, `writes
      ensures Safe() && r != Done
      ensures old(source).Some? ==> source == old(source) && linked == old(linked)
      ensures old(source).None? && retained.Some? && (s.linkable || s.copyWorks) && old(writes) >= 2 ==>
                r == Refused && source == retained
      ensures old(source).Some? || old(writes) >= 2 ==> r == Refused
      ensures old(source).None? && retained.Some? && !s.linkable && old(writes) == 1 ==>
                r == Died && source == Some(Torn(retained.value, torn)) && linked == old(linked)
    {
      var preserved := Preserve(s, torn);
      r := if preserved == Died then Died else Refused;
    }

    /**
      The whole migration.  Wherever it stops or dies, nothing written into the rollout is lost, and the source is
      gone only with an acknowledged mount and a snapshot that matches what was last written.
    */
    method Migrate(s: Surroundings, torn: nat) returns (r: Outcome)
      requires Safe()
      modifies `verified, `source, `retained, `retired, `linked, `managed, `acknowledged, `registered, `writes, `latest
      ensures Safe()
      ensures s.early.None? && s.late.None? ==> latest == old(latest)
      ensures source.None? && old(source).Some? ==>
                managed && acknowledged && Matches(retained) && mark(latest) == verified
      ensures r != Refused ==> old(source).Some? && mark(old(source).value) == old(folded) && !old(managed)
      ensures r == Done ==> source == None && managed && acknowledged && Matches(retained)
      ensures old(managed) || !old(Eligible()) ==> r == Refused && unchanged(this)
      ensures old(retained).Some? && old(source).Some? && mark(old(source).value) != mark(old(retained).value) ==>
                && r == Refused
                && unchanged(`source, `retained, `retired, `linked, `managed, `acknowledged, `registered)
                && unchanged(`writes, `latest)
      ensures !old(managed) && old(Eligible()) && s.Good() && old(writes) >= 4 ==>
                old(retained).None? || mark(old(retained).value) == mark(old(source).value) ==> r == Done
      ensures old(writes) >= 6 ==> r != Died
      ensures old(writes) >= 6 && s.Quiet() ==>
                (r == Done <==>
                  && !old(managed) && old(source).Some? && mark(old(source).value) == old(folded)
                  && s.budget && s.Passes()
                  && (if old(retained).Some? then mark(old(retained).value) == mark(old(source).value)
                      else s.linkable || s.copyWorks))
      ensures old(Eligible()) && s.Quiet() && (s.linkable || s.copyWorks) && old(writes) >= 6 && r == Refused ==>
                source.Some? && mark(source.value) == mark(old(source).value)
      ensures !old(managed) && old(Eligible()) && old(retained).None? && s.budget && !s.linkable ==>
                old(writes) == 1 ==>
                  && r == Died && !managed && retained == Some(Torn(source.value, torn))
                  && source == old(source) && linked == old(linked)
      ensures !old(managed) && old(Eligible()) && old(retained).None? && s.FailsLate() && old(writes) == 5 ==>
                && r == Died && managed && !linked && retained == old(source) && verified == mark(old(source).value)
                && source == Some(Torn(old(source).value, torn)) && request == old(request)
    {
      if managed || !Eligible() {
        return Refused;
      }
      verified := mark(source.value);
      r := Retain(s, torn);
      if r != Done {
        return;
      }
      if s.early.Some? {
        Write(s.early.value);
      }
      if !s.opens {
        r := Rollback(s, torn);
        return;
      }
      var published := Lives();
      if !published {
        return Died;
      }
      r := Enter(s, torn);
    }

    /** The second half: the managed state is published, the source is still there. */
    method Enter(s: Surroundings, torn: nat) returns (r: Outcome)
      requires Safe() && source.Some?
      modifies `source, `retained, `retired, `linked, `managed, `acknowledged, `registered, `writes, `latest
      ensures Safe() && managed
      ensures s.FailsLate() && old(Matches(source)) && old(Matches(retained)) && old(writes) == 2 ==>
                r == Died && !linked && retained == old(retained) && source == Some(Torn(retained.value, torn))
      ensures s.late.None? && old(Matches(source)) && old(Matches(retained)) && old(writes) >= 3 ==>
                (r == Done <==>
                  && s.acknowledges && s.routeKept && s.targetMatches && s.writerIdle
                  && s.targetStillMatches && s.routeStillKept)
      ensures s.late.None? && old(Matches(source)) && old(Matches(retained)) && (s.linkable || s.copyWorks) ==>
                old(writes) >= 3 && r == Refused ==> Matches(source)
      ensures old(writes) >= 3 ==> r != Died
      ensures s.late.None? ==> latest == old(latest)
      ensures source.None? ==> acknowledged && Matches(retained) && mark(latest) == verified
      ensures r == Done ==> source == None && acknowledged && Matches(retained)
      ensures old(Matches(source)) && old(Matches(retained)) && s.Good() && old(writes) >= 1 ==> r == Done
    {
      managed, acknowledged, registered := true, s.acknowledges, s.acknowledges;
      if !s.acknowledges || !s.routeKept || !s.targetMatches || !s.writerIdle {
        r := Rollback(s, torn);
        return;
      }
      r := CutOver(s, torn);
    }

    /** The mount is acknowledged: remove the source, and put it back if the target is not right after all. */
    method CutOver(s: Surroundings, torn: nat) returns (r: Outcome)
      requires Safe() && source.Some? && managed && acknowledged
      modifies `source, `retained, `retired, `linked, `writes, `latest
      ensures Safe()
      ensures s.late.None? ==> latest == old(latest) && retained == old(retained)
      ensures source.None? ==> Matches(retained) && mark(latest) == verified
      ensures r == Done ==> source == None && Matches(retained)
      ensures old(writes) >= 3 ==> r != Died
      ensures s.late.None? && old(writes) >= 3 ==>
                (r == Done <==> old(Matches(source)) && Matches(retained) && s.targetStillMatches && s.routeStillKept)
      ensures s.late.None? && old(Matches(source)) && Matches(retained) && s.targetStillMatches && s.routeStillKept ==>
                old(writes) >= 1 ==> r == Done
      ensures s.late.None? && old(Matches(source)) && Matches(retained) && (s.linkable || s.copyWorks) ==>
                old(writes) >= 3 && r == Refused ==> Matches(source)
      ensures s.late.None? && old(Matches(source)) && Matches(retained) && !s.targetStillMatches && !s.linkable ==>
                old(writes) == 2 ==> r == Died && !linked && source == Some(Torn(retained.value, torn))
    {
      if s.late.Some? {
        Write(s.late.value);
      }
      r := Finalize();
      if r == Died {
        return;
      }
      if r == Refused || !s.targetStillMatches || !s.routeStillKept {
        r := Rollback(s, torn);
      }
    }

    /**
      Recovery of a migration that published its state and never removed its source: the session is handed back.  The
      commit checks once more that the checkpoint, the route and the source are what the request names.
    */
    method RecoverInterrupted(deleted: bool, leased: bool, untouched: bool, handoff: Handoff) returns (r: Outcome)
      requires Safe()
      modifies `source, `retained, `retired, `managed, `registered, `request, `answer, `writes, `latest
      ensures Safe()
      ensures !old(managed) ==> r == Done && unchanged(this)
      ensures old(managed) && deleted ==> r == Refused && unchanged(this)
      ensures !old(Matches(source)) ==> unchanged(this)
      ensures old(managed) && leased && !old(request) && untouched && old(source).Some? && !old(Matches(source)) ==>
                r == Refused
      ensures answer != old(answer) ==> handoff.Runs? || (handoff.RouteMoved? && answer == Some(false))
      ensures answer == Some(true) && old(answer) != Some(true) ==> Matches(source) && handoff.bound && handoff.routed
      ensures managed != old(managed) ==> answer == Some(true) && Matches(source)
      ensures managed == old(managed) && !linked ==> retained == old(retained) && retired == old(retired)
      ensures r == Done && managed != old(managed) ==> !request && !registered && retained == None
      ensures old(managed) && !deleted && (!leased || old(request) || !untouched || old(source).None?) ==>
                r == Done && unchanged(this)
      ensures old(writes) >= 6 ==> r != Died
      // once it makes its request, the outcome of the handoff decides
      ensures old(managed) && !deleted && leased && !old(request) && untouched && old(Matches(source)) ==>
                old(writes) >= 2 ==>
                  && (managed ==> request)
                  && (!managed <==> old(writes) >= 3 && handoff.Runs? && !handoff.deleted && answer == Some(true))
                  && (handoff.RouteMoved? ==> answer == Some(false))
                  && (handoff.Runs? && !handoff.deleted ==>
                        answer == Some(handoff.bound && handoff.routed && Matches(source)))
                  && (handoff.Absent? || handoff.Fails? ==> answer == old(answer) && source == old(source))
      ensures old(managed) && leased && !old(request) && untouched && old(Matches(source)) && old(retained).Some? ==>
                !deleted && handoff == Runs(false, true, true, None) && old(writes) >= 6 ==>
                  r == Done && !managed && !registered && !request && retired == old(retained) && source == old(source)
    {
      if !managed {
        return Done;
      }
      if deleted {
        return Refused;
      }
      if !leased || request || !untouched || source.None? {
        return Done;
      }
      if !Matches(source) {
        return Refused;
      }
      var requested := Lives();
      if !requested {
        return Died;
      }
      request := true;
      if handoff.Absent? {
        return Done;
      }
      if handoff.Fails? {
        return Refused;
      }
      var decided := Commit(handoff);
      if decided != Done {
        return decided;
      }
      r := Retire();
    }

    /** Answer the request; Done when the answer is positive. */
    method Commit(handoff: Handoff) returns (r: Outcome)
      requires Safe() && source.Some? && (handoff.RouteMoved? || handoff.Runs?)
      modifies `source, `retained, `retired, `answer, `writes, `latest
      ensures Safe() && source.Some?
      ensures !linked ==> retained == old(retained) && retired == old(retired)
      ensures r == Done ==> answer == Some(true) && Matches(source) && handoff.Runs? && handoff.bound && handoff.routed
      ensures r == Done <==>
        && handoff.Runs? && !handoff.deleted && handoff.bound && handoff.routed && Matches(source) && old(writes) > 0
      ensures r != Done ==> answer == old(answer) || answer == Some(false)
      ensures handoff.RouteMoved? ==> answer == old(answer) || answer == Some(false)
      ensures old(writes) > 0 && (handoff.Runs? ==> !handoff.deleted) ==>
                answer == Some(r == Done) && r != Died && writes == old(writes) - 1
      ensures handoff.Runs? && handoff.deleted ==> r == Refused && answer == old(answer)
      ensures old(Matches(source)) && handoff == Runs(false, true, true, None) && old(writes) >= 1 ==>
                r == Done && writes == old(writes) - 1 && source == old(source) && retained == old(retained)
    {
      if handoff.Runs? && handoff.written.Some? {
        Write(handoff.written.value);
      }
      if handoff.Runs? && handoff.deleted {
        return Refused;
      }
      var good := handoff.Runs? && handoff.bound && handoff.routed && Matches(source);
      var answered := Lives();
      if !answered {
        return Died;
      }
      answer := Some(good);
      return if good then Done else Refused;
    }

    /** After the positive answer: retire the state, the snapshot and the request. */
    method Retire() returns (r: Outcome)
      requires Safe() && managed && Matches(source)
      modifies `retained, `retired, `managed, `registered, `request, `writes
      ensures Safe()
      ensures managed <==> old(writes) == 0
      ensures old(writes) >= 4 ==> r != Died
      ensures managed ==> retained == old(retained) && retired == old(retired) && r == Died && request == old(request)
      ensures r == Done ==> !managed && !registered && !request && retained == None && retired == old(retained)
      ensures old(retained).Some? && old(writes) >= 4 ==> r == Done
    {
      var stateRetired := Lives();
      if !stateRetired {
        return Died;
      }
      managed := false;
      if retained.None? {
        return Refused;
      }
      var moved := Lives();
      if !moved {
        return Died;
      }
      retired, retained := retained, None;
      var dropped := Lives();
      if !dropped {
        return Died;
      }
      registered := false;
      var cleared := Lives();
      if !cleared {
        return Died;
      }
      request := false;
      return Done;
    }

    // -------------------------------------------------------------- histories

    /**
      Any history of migrations, recoveries, native writes and folds, each dying where it may, loses nothing written.
    */
    method History(attempts: seq<Attempt>)
      requires Safe()
      modifies this
      ensures Safe() && Preserved()
      ensures mark(latest) == verified ==> Held()
    {
      for i := 0 to |attempts|
        invariant Safe()
      {
        var r := Attempted(attempts[i]);
      }
    }

    /** A native write of the attempt, if it is one, has another mark than `place`. */
    ghost predicate Avoids(attempt: Attempt, place: nat) {
      attempt.NativeWrite? ==> mark(attempt.content) != place
    }

    /** A recovery that gets as far as comparing the source. */
    static ghost predicate Recovers(attempt: Attempt) {
      attempt.Recovery? && attempt.leased && attempt.untouched
    }

    /** A snapshot that differs from the source is in the way, and no managed state owns it. */
    ghost predicate Blocking()
      reads this
    {
      !managed && !linked && retained.Some? && source.Some? && mark(source.value) != mark(retained.value)
    }

    /** The session is managed beside a source that is not the verified bytes. */
    ghost predicate Misfit()
      reads this
    {
      managed && source.Some? && !Matches(source)
    }

    method Attempted(attempt: Attempt) returns (r: Outcome)
      requires Safe()
      modifies this
      ensures Safe()
      ensures old(Blocking()) && Avoids(attempt, mark(old(retained).value)) ==>
                Blocking() && retained == old(retained) && (attempt.Migration? ==> r == Refused)
      ensures old(Misfit()) && Avoids(attempt, old(verified)) ==>
                && Misfit() && verified == old(verified) && request == old(request) && answer == old(answer)
                && (attempt.Migration? ==> r == Refused)
                && (Recovers(attempt) && !old(request) ==> r == Refused)
      ensures old(Misfit()) && !linked ==> retained == old(retained)
      ensures old(Blocking()) || old(Misfit()) ==> linked == old(linked)
      ensures attempt.NativeWrite? && old(source).Some? ==> source == Some(attempt.content)
      ensures folded == if attempt.Refold? then attempt.restores else old(folded)
      ensures attempt.writes >= 6 ==> r != Died
      ensures (old(Blocking()) || old(Misfit())) && !attempt.NativeWrite? ==> source == old(source)
    {
      writes := attempt.writes;
      match attempt {
        case Migration(_, s, torn) => r := Migrate(s, torn);
        case Recovery(_, deleted, leased, untouched, handoff) =>
          r := RecoverInterrupted(deleted, leased, untouched, handoff);
        case NativeWrite(_, content) =>
          Write(content);
          r := Done;
        case Refold(_, restores) =>
          folded := restores;
          r := Done;
      }
    }

    /**
      Then every migration is refused, whatever the session is folded to, until a native write makes the source and
      the snapshot equal; and nothing but native writes changes the source.
    */
    method Stranded(attempts: seq<Attempt>) returns (outcomes: seq<Outcome>)
      requires Safe() && Blocking()
      requires forall i | 0 <= i < |attempts| :: Avoids(attempts[i], mark(retained.value))
      modifies this
      ensures Safe() && Blocking() && retained == old(retained) && |outcomes| == |attempts|
      ensures forall i | 0 <= i < |attempts| && attempts[i].Migration? :: outcomes[i] == Refused
      ensures (forall i | 0 <= i < |attempts| :: !attempts[i].NativeWrite?) ==> source == old(source)
    {
      outcomes := [];
      for i := 0 to |attempts|
        invariant Safe() && Blocking() && retained == old(retained) && |outcomes| == i
        invariant forall j | 0 <= j < i && attempts[j].Migration? :: outcomes[j] == Refused
        invariant (forall j | 0 <= j < i :: !attempts[j].NativeWrite?) ==> source == old(source)
      {
        var r := Attempted(attempts[i]);
        outcomes := outcomes + [r];
      }
    }

    /**
      A source that is not the verified bytes is refused by every recovery and every migration, until a native write
      restores those bytes; the session stays managed and no request is made for it.
    */
    method NeverHandedBack(attempts: seq<Attempt>) returns (outcomes: seq<Outcome>)
      requires Safe() && Misfit() && !linked && !request
      requires forall i | 0 <= i < |attempts| :: Avoids(attempts[i], verified)
      modifies this
      ensures Safe() && Misfit() && !request && retained == old(retained) && |outcomes| == |attempts|
      ensures forall i | 0 <= i < |attempts| && (attempts[i].Migration? || Recovers(attempts[i])) ::
                outcomes[i] == Refused
      ensures (forall i | 0 <= i < |attempts| :: !attempts[i].NativeWrite?) ==> source == old(source)
    {
      outcomes := [];
      for i := 0 to |attempts|
        invariant Safe() && Misfit() && !linked && !request && retained == old(retained) && |outcomes| == i
        invariant verified == old(verified)
        invariant forall j | 0 <= j < i && (attempts[j].Migration? || Recovers(attempts[j])) :: outcomes[j] == Refused
        invariant (forall j | 0 <= j < i :: !attempts[j].NativeWrite?) ==> source == old(source)
      {
        var r := Attempted(attempts[i]);
        outcomes := outcomes + [r];
      }
    }

    /**
      A migration that dies while it copies the snapshot.  Unless the torn copy happens to match, every later
      migration is refused; the source is as it was.
    */
    method TornCopyStrands(s: Surroundings, torn: nat, attempts: seq<Attempt>)
      returns (first: Outcome, outcomes: seq<Outcome>)
      requires Safe() && !managed && !linked && Eligible() && retained.None? && s.budget && !s.linkable
      requires writes == 1
      requires mark(Torn(source.value, torn)) != mark(source.value)
      requires forall i | 0 <= i < |attempts| :: Avoids(attempts[i], mark(Torn(source.value, torn)))
      modifies this
      ensures Safe() && first == Died && retained == Some(Torn(old(source).value, torn)) && |outcomes| == |attempts|
      ensures forall i | 0 <= i < |attempts| && attempts[i].Migration? :: outcomes[i] == Refused
      ensures (forall i | 0 <= i < |attempts| :: !attempts[i].NativeWrite?) ==> source == old(source)
    {
      first := Migrate(s, torn);
      outcomes := Stranded(attempts);
    }

    /**
      A migration that fails after it removed the source, and dies while it copies the source back.  Unless the torn
      source happens to match, no recovery hands the session back; the snapshot still has the bytes.
    */
    method TornRestoreStrands(s: Surroundings, torn: nat, attempts: seq<Attempt>)
      returns (first: Outcome, outcomes: seq<Outcome>)
      requires Safe() && !managed && Eligible() && retained.None? && !request && s.FailsLate() && writes == 5
      requires mark(Torn(source.value, torn)) != mark(source.value)
      requires forall i | 0 <= i < |attempts| :: Avoids(attempts[i], mark(source.value))
      modifies this
      ensures Safe() && first == Died && managed && retained == old(source) && |outcomes| == |attempts|
      ensures forall i | 0 <= i < |attempts| && (attempts[i].Migration? || Recovers(attempts[i])) ::
                outcomes[i] == Refused
      ensures (forall i | 0 <= i < |attempts| :: !attempts[i].NativeWrite?) ==>
                source == Some(Torn(old(source).value, torn))
    {
      first := Migrate(s, torn);
      outcomes := NeverHandedBack(attempts);
    }
  }
}
