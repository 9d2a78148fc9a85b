/**
  Safety of the retirement protocol: an inductive invariant that every legal run keeps.
*/
module RetirementSafety {
  import opened Common
  import opened RetirementProtocol

  // ---------------------------------------------------------------- the invariant

  ghost predicate SnapshotOnce(d: Disk) {
    && d.original != d.retained
    && (d.place == Active ==> d.original)
  }

  ghost predicate ControlFiles(s: System) {
    var d := s.disk;
    && (d.request.Some? && d.answer.Some? ==> d.answer.value.control == d.request.value)
    && (d.place == Retired && d.Pending() ==> d.Accepted())
    && (d.place == Retired ==> s.accepted != {})
    && (s.noticed ==> d.place == Active && d.answer.Some? ==> d.request.None?)
    && (s.noticed ==> !s.holder.Daemon())
    && (d.Pending() ==> d.request.value.generation <= d.generation && d.request.value.checkpoint <= d.checkpoint)
  }

  /** Each token has at most one answer, and the files say the same as the history. */
  ghost predicate Answers(s: System) {
    var d := s.disk;
    && s.accepted !! s.rejected
    && s.accepted + s.rejected <= s.published.Keys <= s.used
    && (forall t | t in s.published :: s.published[t].token == t)
    && (d.Pending() ==>
          && Known(s, d.request.value)
          && (d.request.value.token in s.accepted <==> d.Accepted())
          && (d.request.value.token in s.rejected <==> d.Refused()))
    && (d.answer.Some? ==>
          && Known(s, d.answer.value.control)
          && d.answer.value.control.token in (if d.answer.value.rejected then s.rejected else s.accepted))
  }

  ghost predicate Known(s: System, c: Control) {
    c.token in s.published && s.published[c.token] == c
  }

  ghost predicate RegistryFits(d: Disk) {
    && (d.registry.Some? ==> d.listed && d.registry.value <= d.generation)
    && (d.place == Retired && d.request.None? ==> d.registry.None? && d.retained)
  }

  ghost predicate HolderFits(s: System) {
    var d := s.disk;
    match s.holder
    case Free => true
    case Creating(c, _) =>
      && d.place == Active && d.request.None? && d.answer.None?
      && c.token in s.used && c.token !in s.published
      && c.generation == d.generation && c.checkpoint == d.checkpoint
    case Deciding => d.place == Active && d.Pending() && d.answer.None?
    case Forward(stage) =>
      && (!stage.DropForward? ==> d.Accepted())
      && (!stage.MoveDirectory? ==> d.place == Retired)
      && (stage.DropEntry? || stage.ClearForward? ==> d.retained)
      && (stage.ClearForward? ==> d.registry.None?)
      && (stage.DropForward? ==> d.request.None?)
    case Restoring(stage, wanted) =>
      && wanted > 0
      && d.place == Active
      && (!stage.DropRestore? ==> d.Refused() && wanted == d.request.value.generation + 1)
      && (stage.Upsert? || stage.ClearRestore? ==> d.generation == wanted)
      && (stage.ClearRestore? ==> d.registry == d.Entry())
      && (stage.DropRestore? ==> d.request.None? && d.generation == wanted && d.registry == d.Entry())
    case Compensating(stage) => d.place == Active && (stage.DropAgain? ==> d.request.None?)
  }

  /** Managed authority is gone: a positive answer is durable and still in force. */
  ghost predicate Committed(s: System) {
    s.disk.place == Retired || s.disk.Accepted()
  }

  ghost predicate Sound(s: System) {
    SnapshotOnce(s.disk) && ControlFiles(s) && Answers(s) && RegistryFits(s.disk) && HolderFits(s)
  }

  lemma InitSound(s: System)
    requires Init(s)
    ensures Sound(s)
  {
  }

  // ---------------------------------------------------------------- every action keeps it

  lemma RequestKeepsSound(s: System, a: Action)
    requires Sound(s) && Enabled(s, a) && (a.BeginRequest? || a.PublishRequest?)
    ensures Sound(Apply(s, a))
  {
  }

  lemma DecisionKeepsSound(s: System, a: Action)
    requires Sound(s) && Enabled(s, a) && (a.Accept? || a.Refuse? || a.ResumeForward? || a.ResumeRestore?)
    ensures Sound(Apply(s, a))
  {
  }

  lemma ForwardStartsSound(s: System)
    requires Sound(s) && s.holder.Forward? && Enabled(s, Proceed)
    requires !(s.holder.forward.ClearForward? || s.holder.forward.DropForward?)
    ensures Sound(Apply(s, Proceed))
  {
  }

  lemma ForwardEndsSound(s: System)
    requires Sound(s) && s.holder.Forward? && Enabled(s, Proceed)
    requires (s.holder.forward.ClearForward? || s.holder.forward.DropForward?)
    ensures Sound(Apply(s, Proceed))
  {
  }

  lemma ForwardKeepsSound(s: System)
    requires Sound(s) && s.holder.Forward? && Enabled(s, Proceed)
    ensures Sound(Apply(s, Proceed))
  {
    if s.holder.forward.ClearForward? || s.holder.forward.DropForward? {
      ForwardEndsSound(s);
    } else {
      ForwardStartsSound(s);
    }
  }

  lemma RestoreStartsSound(s: System)
    requires Sound(s) && s.holder.Restoring? && Enabled(s, Proceed)
    requires !(s.holder.restore.ClearRestore? || s.holder.restore.DropRestore?)
    ensures Sound(Apply(s, Proceed))
  {
  }

  lemma RestoreEndsSound(s: System)
    requires Sound(s) && s.holder.Restoring? && Enabled(s, Proceed)
    requires (s.holder.restore.ClearRestore? || s.holder.restore.DropRestore?)
    ensures Sound(Apply(s, Proceed))
  {
  }

  lemma RestoreKeepsSound(s: System)
    requires Sound(s) && s.holder.Restoring? && Enabled(s, Proceed)
    ensures Sound(Apply(s, Proceed))
  {
    if s.holder.restore.ClearRestore? || s.holder.restore.DropRestore? {
      RestoreEndsSound(s);
    } else {
      RestoreStartsSound(s);
    }
  }

  lemma CompensationStartsSound(s: System)
    requires Sound(s) && s.holder.Compensating? && Enabled(s, Proceed)
    requires !(s.holder.compensation.ClearAgain? || s.holder.compensation.DropAgain?)
    ensures Sound(Apply(s, Proceed))
  {
  }

  lemma CompensationEndsSound(s: System)
    requires Sound(s) && s.holder.Compensating? && Enabled(s, Proceed)
    requires (s.holder.compensation.ClearAgain? || s.holder.compensation.DropAgain?)
    ensures Sound(Apply(s, Proceed))
  {
  }

  lemma CompensationKeepsSound(s: System)
    requires Sound(s) && s.holder.Compensating? && Enabled(s, Proceed)
    ensures Sound(Apply(s, Proceed))
  {
    if s.holder.compensation.ClearAgain? || s.holder.compensation.DropAgain? {
      CompensationEndsSound(s);
    } else {
      CompensationStartsSound(s);
    }
  }

  lemma OtherKeepsSound(s: System, a: Action)
    requires Sound(s) && Enabled(s, a)
    requires a.Crash? || a.NoticeNoRequest? || a.ForgetNotice? || a.Compensate? || a.ChangeNative? || a.StartWaiting? ||
             a.Look?
    ensures Sound(Apply(s, a))
  {
  }

  lemma DiskKeepsSound(s: System, a: Action)
    requires Sound(s) && Enabled(s, a) && (a.DropStaleAnswer? || a.FenceRegistry? || a.ManagedWrite? || a.Compact?)
    ensures Sound(Apply(s, a))
  {
  }

  /** Every action of every actor, a compensation that meets a foreign request included. */
  lemma StepKeepsSound(s: System, a: Action)
    requires Sound(s) && Enabled(s, a)
    ensures Sound(Apply(s, a))
  {
    match a
    case BeginRequest(_, _) => RequestKeepsSound(s, a);
    case PublishRequest => RequestKeepsSound(s, a);
    case Accept(_) => DecisionKeepsSound(s, a);
    case Refuse(_) => DecisionKeepsSound(s, a);
    case ResumeForward => DecisionKeepsSound(s, a);
    case ResumeRestore => DecisionKeepsSound(s, a);
    case Proceed =>
      if s.holder.Forward? {
        ForwardKeepsSound(s);
      } else if s.holder.Restoring? {
        RestoreKeepsSound(s);
      } else {
        CompensationKeepsSound(s);
      }
    case DropStaleAnswer => DiskKeepsSound(s, a);
    case FenceRegistry => DiskKeepsSound(s, a);
    case ManagedWrite => DiskKeepsSound(s, a);
    case Compact => DiskKeepsSound(s, a);
    case _ => OtherKeepsSound(s, a);
  }

  lemma {:induction false} RunKeepsSound(s: System, run: seq<Action>)
    requires Sound(s) && Legal(s, run)
    ensures Sound(After(s, run))
    decreases |run|
  {
    if run != [] {
      StepKeepsSound(s, run[0]);
      RunKeepsSound(Apply(s, run[0]), run[1..]);
    }
  }
}
