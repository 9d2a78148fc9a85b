/**
  What the invariant gives for whole runs, and where recovery ends.
*/
module RetirementTheorems {
  import opened Common
  import opened RetirementProtocol
  import opened RetirementSafety

  // ---------------------------------------------------------------- every reachable state

  /** The files of every reachable state, and the history behind them, whatever the actors do. */
  lemma EveryReachableState(start: System, run: seq<Action>)
    requires Init(start) && Legal(start, run)
    ensures var s := After(start, run);
            && s.disk.original != s.disk.retained
            && (s.disk.place == Active ==> s.disk.original)
            && (s.disk.place == Retired && s.disk.Pending() ==> s.disk.Accepted())
            && s.accepted !! s.rejected
  {
    InitSound(start);
    RunKeepsSound(start, run);
  }

  // ---------------------------------------------------------------- at most one answer

  lemma {:induction false} HistoryGrows(s: System, run: seq<Action>)
    requires Legal(s, run)
    ensures s.accepted <= After(s, run).accepted && s.rejected <= After(s, run).rejected
    decreases |run|
  {
    if run != [] {
      HistoryGrows(Apply(s, run[0]), run[1..]);
    }
  }

  lemma {:induction false} PublishedGrows(s: System, run: seq<Action>)
    requires Sound(s) && Legal(s, run)
    ensures forall t | t in s.published :: t in After(s, run).published && After(s, run).published[t] == s.published[t]
    decreases |run|
  {
    if run != [] {
      StepKeepsSound(s, run[0]);
      PublishedGrows(Apply(s, run[0]), run[1..]);
    }
  }

  /** Two answers that are ever on disk for one token, however far apart, say the same. */
  lemma OneAnswerEver(start: System, first: seq<Action>, second: seq<Action>, token: nat)
    requires Init(start) && Legal(start, first) && Legal(After(start, first), second)
    ensures var early := After(start, first).disk.answer;
            var late := After(After(start, first), second).disk.answer;
            early.Some? && late.Some? && early.value.control.token == token == late.value.control.token ==>
              early == late
  {
    var middle := After(start, first);
    InitSound(start);
    RunKeepsSound(start, first);
    RunKeepsSound(middle, second);
    HistoryGrows(middle, second);
    PublishedGrows(middle, second);
  }

  /** The state in which a positive answer may be given to `token`: exact checkpoint, exact native bytes. */
  ghost predicate Exact(s: System, token: nat) {
    && s.disk.Pending() && s.disk.request.value.token == token && s.disk.Bound()
    && s.disk.answer.None? && token !in s.rejected
    && s.native == Some(s.disk.request.value.target)
  }

  /** Whatever was ever accepted was accepted at one point of the run, and that point was exact. */
  lemma {:induction false} AcceptedOnlyExact(s: System, run: seq<Action>, token: nat) returns (k: nat)
    requires Sound(s) && Legal(s, run) && token !in s.accepted && token in After(s, run).accepted
    ensures k < |run| && Legal(s, run[..k]) && Legal(s, run[..k + 1])
    ensures run[k].Accept? && Exact(After(s, run[..k]), token)
    ensures token !in After(s, run[..k]).accepted && token in After(s, run[..k + 1]).accepted
    decreases |run|
  {
    var next := Apply(s, run[0]);
    StepKeepsSound(s, run[0]);
    if token in next.accepted {
      k := 0;
      assert run[..1][1..] == [] && run[..0] == [];
      assert Legal(next, run[..1][1..]);
    } else {
      var i := AcceptedOnlyExact(next, run[1..], token);
      k := i + 1;
      assert run[..k][1..] == run[1..][..i] && run[..k + 1][1..] == run[1..][..i + 1];
    }
  }

  // ---------------------------------------------------------------- a positive answer is final

  /** The compensation of another command removes an accepted request. */
  predicate Undoes(s: System, a: Action) {
    a.Proceed? && s.holder == Compensating(ClearAgain) && s.disk.place == Active
  }

  /** One step ends a commit exactly when it is such a removal. */
  lemma CommitEndsIff(s: System, a: Action)
    requires Sound(s) && Enabled(s, a) && Committed(s)
    ensures Committed(Apply(s, a)) <==> !Undoes(s, a)
    ensures s.disk.place == Retired ==> Apply(s, a).disk.place == Retired
  {
  }

  predicate NeverUndone(s: System, run: seq<Action>)
    requires Legal(s, run)
    decreases |run|
  {
    run == [] || (!Undoes(s, run[0]) && NeverUndone(Apply(s, run[0]), run[1..]))
  }

  ghost predicate CommittedThroughout(s: System, run: seq<Action>)
    requires Legal(s, run)
    decreases |run|
  {
    Committed(s) && (run == [] || CommittedThroughout(Apply(s, run[0]), run[1..]))
  }

  /** Over any run a commit stays in force exactly when no step undoes it. */
  lemma {:induction false} CommitLastsIff(s: System, run: seq<Action>)
    requires Sound(s) && Legal(s, run) && Committed(s)
    ensures CommittedThroughout(s, run) <==> NeverUndone(s, run)
    decreases |run|
  {
    if run != [] {
      CommitEndsIff(s, run[0]);
      StepKeepsSound(s, run[0]);
      if Committed(Apply(s, run[0])) {
        CommitLastsIff(Apply(s, run[0]), run[1..]);
      }
    }
  }

  /** No compensating command is at work on an accepted request. */
  predicate Untouched(s: System) {
    s.holder.Compensating? ==> !s.disk.Accepted()
  }

  /** No compensating command begins on an accepted request. */
  predicate SparesAccepted(s: System, run: seq<Action>)
    requires Legal(s, run)
    decreases |run|
  {
    run == [] || ((run[0].Compensate? ==> !s.disk.Accepted()) && SparesAccepted(Apply(s, run[0]), run[1..]))
  }

  lemma CommitStepIsFinal(s: System, a: Action)
    requires Sound(s) && Enabled(s, a) && Committed(s) && Untouched(s) && (a.Compensate? ==> !s.disk.Accepted())
    ensures Committed(Apply(s, a)) && Untouched(Apply(s, a))
    ensures s.disk.place == Retired ==> Apply(s, a).disk.place == Retired
    ensures !a.Compact? ==> Apply(s, a).disk.generation == s.disk.generation
  {
  }

  /**
    After a positive answer, as long as no compensating command begins on the accepted request, no actor restores
    managed authority: the directory never comes back, the state is never republished, and the request disappears
    only from the retired directory.
  */
  lemma {:induction false} CommitIsFinal(s: System, run: seq<Action>)
    requires Sound(s) && Legal(s, run) && Committed(s) && Untouched(s) && SparesAccepted(s, run)
    ensures Committed(After(s, run))
    ensures s.disk.place == Retired ==> After(s, run).disk.place == Retired
    ensures (forall a | a in run :: !a.Compact?) ==> After(s, run).disk.generation == s.disk.generation
    ensures After(s, run).disk.request.None? ==> After(s, run).disk.place == Retired
    decreases |run|
  {
    if run != [] {
      CommitStepIsFinal(s, run[0]);
      StepKeepsSound(s, run[0]);
      assert forall a | a in run[1..] :: a in run;
      CommitIsFinal(Apply(s, run[0]), run[1..]);
    }
  }

  // ---------------------------------------------------------------- where recovery ends

  ghost predicate FullyRetired(d: Disk) {
    d.place == Retired && d.request.None? && d.registry.None? && d.retained && !d.original
  }

  ghost predicate FullyRestored(d: Disk, generation: nat) {
    && d.place == Active && d.request.None? && d.generation == generation
    && d.registry == d.Entry() && d.original && !d.retained
  }

  predicate StartsRecovery(a: Action) {
    a == Accept(Recovery) || a == Refuse(Recovery) || a == ResumeForward || a == ResumeRestore
  }

  /** What recovery's validation asks of the durable state. */
  predicate Recoverable(d: Disk)
    requires d.Pending()
  {
    if d.Accepted() then d.Bound() else Plannable(d)
  }

  lemma RecoveryStartsIff(s: System)
    requires Sound(s) && s.holder == Free && !s.noticed && s.disk.Pending()
    ensures (exists a | StartsRecovery(a) :: Enabled(s, a)) <==> Recoverable(s.disk)
  {
    if Recoverable(s.disk) {
      var a := if s.disk.Accepted() then ResumeForward
               else if s.disk.Refused() then ResumeRestore else Refuse(Recovery);
      assert StartsRecovery(a) && Enabled(s, a);
    }
  }

  function Rank(h: Holder): nat {
    match h
    case Forward(stage) =>
      (match stage case MoveDirectory => 5 case MoveSnapshot => 4 case DropEntry => 3
                   case ClearForward => 2 case DropForward => 1)
    case Restoring(stage, _) =>
      (match stage case ReturnSnapshot => 6 case ReturnDirectory => 5 case Republish => 4 case Upsert => 3
                   case ClearRestore => 2 case DropRestore => 1)
    case _ => 0
  }

  /** Recovery goes on, write after write, until it has nothing left to do. */
  function Drain(s: System): System
    decreases Rank(s.holder)
  {
    if Rank(s.holder) > 0 && Enabled(s, Proceed) then Drain(Apply(s, Proceed)) else s
  }

  lemma {:induction false} DrainForward(s: System)
    requires Sound(s) && s.holder.Forward?
    ensures Drain(s).holder == Free && FullyRetired(Drain(s).disk)
    decreases Rank(s.holder)
  {
    ForwardKeepsSound(s);
    if !s.holder.forward.DropForward? {
      DrainForward(Apply(s, Proceed));
    }
  }

  lemma {:induction false} DrainRestore(s: System)
    requires Sound(s) && s.holder.Restoring?
    requires s.disk.generation == s.holder.wanted || s.disk.generation + 1 == s.holder.wanted
    ensures Drain(s).holder == Free && FullyRestored(Drain(s).disk, s.holder.wanted)
    decreases Rank(s.holder)
  {
    RestoreKeepsSound(s);
    if !s.holder.restore.DropRestore? {
      DrainRestore(Apply(s, Proceed));
    }
  }

  /** Uninterrupted recovery ends fully retired or fully restored, and the durable answer decides which. */
  lemma RecoveryCompletes(s: System, a: Action)
    requires Sound(s) && s.disk.Pending() && StartsRecovery(a) && Enabled(s, a)
    ensures var c := s.disk.request.value;
            var begun := Apply(s, a);
            var end := Drain(begun);
            && end.holder == Free
            && (begun.disk.Accepted() <==> c.token in begun.accepted)
            && (if begun.disk.Accepted() then FullyRetired(end.disk) else FullyRestored(end.disk, c.generation + 1))
  {
    DecisionKeepsSound(s, a);
    if Apply(s, a).holder.Forward? {
      DrainForward(Apply(s, a));
    } else {
      DrainRestore(Apply(s, a));
    }
  }

  // ---------------------------------------------------------------- crashes during recovery

  /** No other actor advances the generation, or compensates, while a request is pending. */
  predicate Undisturbed(s: System, a: Action) {
    s.disk.Pending() ==> !a.Compact? && !a.Compensate?
  }

  predicate UndisturbedRun(s: System, run: seq<Action>)
    requires Legal(s, run)
    decreases |run|
  {
    run == [] || (Undisturbed(s, run[0]) && UndisturbedRun(Apply(s, run[0]), run[1..]))
  }

  /** Recovery can always be started again. */
  ghost predicate Resumable(s: System) {
    && !s.holder.Compensating?
    && (s.disk.Pending() ==> Recoverable(s.disk))
  }

  lemma StepKeepsResumable(s: System, a: Action)
    requires Sound(s) && Enabled(s, a) && Resumable(s) && Undisturbed(s, a)
    ensures Resumable(Apply(s, a))
  {
  }

  lemma {:induction false} RunKeepsResumable(s: System, run: seq<Action>)
    requires Sound(s) && Legal(s, run) && Resumable(s) && UndisturbedRun(s, run)
    ensures Sound(After(s, run)) && Resumable(After(s, run))
    decreases |run|
  {
    if run != [] {
      StepKeepsSound(s, run[0]);
      StepKeepsResumable(s, run[0]);
      RunKeepsResumable(Apply(s, run[0]), run[1..]);
    }
  }

  /** Steps that can happen while only recovery works on the session. */
  predicate RecoveryOnly(a: Action) {
    StartsRecovery(a) || a.Proceed? || a.Crash? || a.ManagedWrite? || a.FenceRegistry? || a.ChangeNative? ||
    a.StartWaiting? || a.Look? || a.ForgetNotice?
  }

  /** The request `c` is still pending, or it has been settled one way or the other. */
  ghost predicate UnderWay(s: System, c: Control) {
    if s.disk.Pending() then
      s.disk.request.value == c
    else
      && (c.token in s.accepted ==> FullyRetired(s.disk))
      && (c.token in s.rejected ==> FullyRestored(s.disk, c.generation + 1))
      && (c.token in s.accepted || c.token in s.rejected)
  }

  lemma StepKeepsUnderWay(s: System, a: Action, c: Control)
    requires Sound(s) && Enabled(s, a) && RecoveryOnly(a) && UnderWay(s, c) && Resumable(s)
    requires s.holder.Free? || s.holder.Forward? || s.holder.Restoring?
    ensures UnderWay(Apply(s, a), c)
    ensures var h := Apply(s, a).holder; h.Free? || h.Forward? || h.Restoring?
  {
    if a.Proceed? {
      ProceedKeepsUnderWay(s, c);
    } else if StartsRecovery(a) {
      StartKeepsUnderWay(s, a, c);
    }
  }

  lemma ProceedKeepsUnderWay(s: System, c: Control)
    requires Sound(s) && Enabled(s, Proceed) && UnderWay(s, c) && (s.holder.Forward? || s.holder.Restoring?)
    ensures UnderWay(Apply(s, Proceed), c)
  {
  }

  lemma StartKeepsUnderWay(s: System, a: Action, c: Control)
    requires Sound(s) && StartsRecovery(a) && Enabled(s, a) && UnderWay(s, c)
    ensures UnderWay(Apply(s, a), c)
  {
  }

  lemma {:induction false} RecoveryUnderCrashes(s: System, run: seq<Action>, c: Control)
    requires Sound(s) && Legal(s, run) && (forall a | a in run :: RecoveryOnly(a))
    requires UnderWay(s, c) && Resumable(s)
    requires s.holder.Free? || s.holder.Forward? || s.holder.Restoring?
    ensures var end := After(s, run);
            && UnderWay(end, c)
            && (end.disk.Pending() ==> Recoverable(end.disk))
    decreases |run|
  {
    if run != [] {
      StepKeepsUnderWay(s, run[0], c);
      StepKeepsSound(s, run[0]);
      StepKeepsResumable(s, run[0]);
      assert forall a | a in run[1..] :: a in run;
      RecoveryUnderCrashes(Apply(s, run[0]), run[1..], c);
    }
  }

  /** The process that held the lock, and the daemon with what it had noticed, are dead. */
  function Dead(s: System): System {
    Apply(Apply(s, Crash), ForgetNotice)
  }

  /** How recovery, started with `a` and left alone, ends. */
  ghost predicate Converges(s: System, a: Action)
    requires Enabled(s, a) && s.disk.Pending()
  {
    var c := s.disk.request.value;
    var end := Drain(Apply(s, a));
    && end.holder == Free
    && (FullyRetired(end.disk) <==> c.token in end.accepted)
    && (FullyRestored(end.disk, c.generation + 1) <==> c.token in end.rejected)
    && (c.token in end.accepted <==> c.token !in end.rejected)
  }

  lemma RecoveryConverges(s: System, a: Action)
    requires Sound(s) && s.disk.Pending() && StartsRecovery(a) && Enabled(s, a)
    ensures Converges(s, a)
  {
    RecoveryCompletes(s, a);
    DecisionKeepsSound(s, a);
    DrainKeepsHistory(Apply(s, a));
  }

  /**
    From every state the protocol can reach undisturbed, whatever crashes and partial recoveries happened, recovery can
    start, and however it starts it ends in exactly one of the two final states.
  */
  lemma RepeatedRecoveryConverges(start: System, run: seq<Action>)
    requires Init(start) && Legal(start, run) && UndisturbedRun(start, run) && After(start, run).disk.Pending()
    ensures exists a | StartsRecovery(a) :: Enabled(Dead(After(start, run)), a)
    ensures forall a | StartsRecovery(a) && Enabled(Dead(After(start, run)), a) :: Converges(Dead(After(start, run)), a)
  {
    InitSound(start);
    RunKeepsResumable(start, run);
    var last := After(start, run);
    StepKeepsSound(last, Crash);
    StepKeepsSound(Apply(last, Crash), ForgetNotice);
    RecoveryStartsIff(Dead(last));
    forall a | StartsRecovery(a) && Enabled(Dead(last), a)
      ensures Converges(Dead(last), a)
    {
      RecoveryConverges(Dead(last), a);
    }
  }

  lemma {:induction false} DrainKeepsHistory(s: System)
    ensures Drain(s).accepted == s.accepted && Drain(s).rejected == s.rejected
    decreases Rank(s.holder)
  {
    if Rank(s.holder) > 0 && Enabled(s, Proceed) {
      DrainKeepsHistory(Apply(s, Proceed));
    }
  }

  // ---------------------------------------------------------------- when recovery cannot start

  /** Once another actor has pushed the generation too far, only the compensating command can help. */
  lemma {:induction false} StuckStaysStuck(s: System, run: seq<Action>)
    requires Sound(s) && Legal(s, run) && (forall a | a in run :: !a.Compensate?)
    requires s.holder == Free && s.disk.Pending() && !Recoverable(s.disk)
    ensures After(s, run).disk.Pending() && !Recoverable(After(s, run).disk)
    decreases |run|
  {
    if run != [] {
      StepKeepsSound(s, run[0]);
      assert forall a | a in run[1..] :: a in run;
      StuckStaysStuck(Apply(s, run[0]), run[1..]);
    }
  }

  // ---------------------------------------------------------------- what the others do to a pending request

  /** A compaction leaves a request recoverable exactly once, and only before it is accepted. */
  lemma CompactionStrandsIff(s: System)
    requires Sound(s) && s.disk.Pending() && Recoverable(s.disk) && Enabled(s, Compact)
    ensures Recoverable(Apply(s, Compact).disk) <==>
            !s.disk.Accepted() && s.disk.generation == s.disk.request.value.generation
  {
  }

  /** A managed write unbinds a request, so that it cannot be accepted any more, and leaves it recoverable. */
  lemma WriteUnbinds(s: System)
    requires Sound(s) && s.disk.Pending() && Enabled(s, ManagedWrite)
    ensures !Apply(s, ManagedWrite).disk.Bound()
    ensures Recoverable(Apply(s, ManagedWrite).disk) <==> Recoverable(s.disk)
    ensures forall who :: !Enabled(Apply(s, ManagedWrite), Accept(who))
  {
  }

  /** An answer without its request is removed by the daemon in two steps, and nothing else changes. */
  lemma StaleAnswerGoes(s: System)
    requires Sound(s) && !s.holder.Daemon() && s.disk.place == Active && s.disk.request.None?
    ensures Legal(s, [NoticeNoRequest, DropStaleAnswer])
    ensures After(s, [NoticeNoRequest, DropStaleAnswer]) == s.(noticed := false, disk := s.disk.(answer := None))
  {
    assert [NoticeNoRequest, DropStaleAnswer][1..] == [DropStaleAnswer];
  }

  /** At a fence the entry of an active session has its generation, whatever it was before. */
  lemma FenceRaises(s: System)
    requires Sound(s) && s.holder == Free && !s.noticed && s.disk.listed
    ensures Enabled(s, FenceRegistry)
    ensures Apply(s, FenceRegistry).disk ==
            if s.disk.place == Active then s.disk.(registry := Some(s.disk.generation)) else s.disk
  {
  }

  /**
    An answer is written under the lock: by recovery or a cutover when nobody else holds it, or by the migration
    recovery that does; and that one can always refuse its request.
  */
  lemma DecidedUnderLock(s: System, who: Actor)
    requires Sound(s)
    ensures Enabled(s, Accept(who)) || Enabled(s, Refuse(who)) ==>
              && (if who == Migration then s.holder == Deciding else s.holder == Free)
              && (who == Cutover || who == Migration ==> s.disk.place == Active)
    ensures s.holder == Deciding ==> Enabled(s, Refuse(Migration))
  {
  }

  /** Crashes and native writers come at any time; managed writers, compaction and compensation whenever they may. */
  lemma OthersAreFree(s: System, now: Option<nat>, own: nat)
    ensures Enabled(s, Crash) && Enabled(s, ChangeNative(now))
    ensures s.disk.place == Active && !s.holder.Daemon() && !s.holder.Creating? ==>
              Enabled(s, Compact) && (!s.disk.Accepted() ==> Enabled(s, ManagedWrite))
    ensures s.holder == Free && s.disk.place == Active && s.disk.Pending() && own in s.published ==>
              (own in s.rejected ==> Enabled(s, Compensate(own))) &&
              (s.disk.request.value.token != own ==> Enabled(s, Compensate(own)))
  {
  }
}
