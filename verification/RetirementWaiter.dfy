/**
  The initiator that waits for the answer to its own request.  It reads four files one after another, so its report is
  about different moments; what the report says of its own request is stated here for every legal run.
*/
module RetirementWaiter {
  import opened Common
  import opened RetirementProtocol
  import opened RetirementSafety
  import opened RetirementTheorems

  // ---------------------------------------------------------------- one request

  predicate Owns(d: Disk, token: nat) {
    d.Pending() && d.request.value.token == token
  }

  /** The compensation of another command removes this request although it was not refused. */
  predicate Removes(s: System, a: Action, token: nat) {
    a.Proceed? && s.holder == Compensating(ClearAgain) && Owns(s.disk, token) && !s.disk.Refused()
  }

  predicate Spared(s: System, run: seq<Action>, token: nat)
    requires Legal(s, run)
    decreases |run|
  {
    run == [] || (!Removes(s, run[0], token) && Spared(Apply(s, run[0]), run[1..], token))
  }

  /** Once published it is pending or answered, and an accepted one is pending while the session is active. */
  ghost predicate Settled(s: System, token: nat) {
    && (token in s.published ==> Owns(s.disk, token) || token in s.accepted || token in s.rejected)
    && (token in s.accepted && s.disk.place == Active ==> Owns(s.disk, token))
  }

  /** A step unsettles a request exactly when it removes it unrefused. */
  lemma SettledStepIff(s: System, a: Action, token: nat)
    requires Sound(s) && Enabled(s, a) && Settled(s, token)
    ensures Settled(Apply(s, a), token) <==> !Removes(s, a, token)
  {
  }

  lemma {:induction false} SparedStaysSettled(s: System, run: seq<Action>, token: nat)
    requires Sound(s) && Legal(s, run) && Settled(s, token) && Spared(s, run, token)
    ensures Settled(After(s, run), token)
    decreases |run|
  {
    if run != [] {
      SettledStepIff(s, run[0], token);
      StepKeepsSound(s, run[0]);
      SparedStaysSettled(Apply(s, run[0]), run[1..], token);
    }
  }

  /** A request that is published and not pending will not be pending or answered any more. */
  lemma PastStep(s: System, a: Action, token: nat)
    requires Sound(s) && Enabled(s, a) && token in s.published && !Owns(s.disk, token)
    ensures token in Apply(s, a).published && !Owns(Apply(s, a).disk, token)
    ensures token in Apply(s, a).accepted <==> token in s.accepted
    ensures token in Apply(s, a).rejected <==> token in s.rejected
  {
  }

  lemma {:induction false} PastStays(s: System, run: seq<Action>, token: nat)
    requires Sound(s) && Legal(s, run) && token in s.published && !Owns(s.disk, token)
    ensures token in After(s, run).published && !Owns(After(s, run).disk, token)
    ensures token in After(s, run).accepted <==> token in s.accepted
    ensures token in After(s, run).rejected <==> token in s.rejected
    decreases |run|
  {
    if run != [] {
      PastStep(s, run[0], token);
      StepKeepsSound(s, run[0]);
      PastStays(Apply(s, run[0]), run[1..], token);
    }
  }

  /** Published, no longer pending, and never refused. */
  ghost predicate Gone(s: System, token: nat) {
    token in s.published && !Owns(s.disk, token) && token !in s.rejected
  }

  lemma {:induction false} RemovedIsGone(s: System, run: seq<Action>, token: nat)
    requires Sound(s) && Legal(s, run) && !Spared(s, run, token)
    ensures Gone(After(s, run), token)
    decreases |run|
  {
    StepKeepsSound(s, run[0]);
    if Removes(s, run[0], token) {
      PastStays(Apply(s, run[0]), run[1..], token);
    } else {
      RemovedIsGone(Apply(s, run[0]), run[1..], token);
    }
  }

  // ---------------------------------------------------------------- what the waiter has read

  /** What is true of every report, whatever the other commands do. */
  ghost predicate Reported(s: System) {
    && (!s.waiter.NotWaiting? ==> Known(s, s.waiter.own))
    && (s.waiter.Done? && s.waiter.verdict == Succeeded ==> s.disk.place == Retired || s.waiter.own.token in s.accepted)
  }

  /** What the reads so far say of the own request, as long as it is spared. */
  ghost predicate WaiterFits(s: System) {
    match s.waiter
    case NotWaiting => true
    case ReadAnswer(_) => true
    case ReadRequest(_) => true
    case ReadDirectory(c) => s.disk.place == Active ==> c.token in s.rejected
    case ReadState(c) => c.token in s.rejected
    case Done(c, v) => v == Rejected ==> c.token in s.rejected
  }

  lemma ReportedStep(s: System, a: Action)
    requires Sound(s) && Enabled(s, a) && Reported(s)
    ensures Reported(Apply(s, a))
  {
  }

  lemma {:induction false} RunKeepsReported(s: System, run: seq<Action>)
    requires Sound(s) && Legal(s, run) && Reported(s)
    ensures Reported(After(s, run))
    decreases |run|
  {
    if run != [] {
      ReportedStep(s, run[0]);
      StepKeepsSound(s, run[0]);
      RunKeepsReported(Apply(s, run[0]), run[1..]);
    }
  }

  lemma WaiterStep(s: System, a: Action)
    requires Sound(s) && Enabled(s, a) && Reported(s) && WaiterFits(s)
    requires !s.waiter.NotWaiting? ==> Settled(s, s.waiter.own.token)
    ensures WaiterFits(Apply(s, a))
  {
  }

  lemma {:induction false} OwnStays(s: System, run: seq<Action>)
    requires Legal(s, run) && !s.waiter.NotWaiting?
    ensures !After(s, run).waiter.NotWaiting? && After(s, run).waiter.own == s.waiter.own
    decreases |run|
  {
    if run != [] {
      OwnStays(Apply(s, run[0]), run[1..]);
    }
  }

  lemma {:induction false} RunKeepsWaiter(s: System, run: seq<Action>, token: nat)
    requires Sound(s) && Legal(s, run) && Reported(s) && WaiterFits(s) && Settled(s, token) && Spared(s, run, token)
    requires !After(s, run).waiter.NotWaiting? && After(s, run).waiter.own.token == token
    ensures WaiterFits(After(s, run))
    decreases |run|
  {
    if !s.waiter.NotWaiting? {
      OwnStays(s, run);
    }
    if run != [] {
      WaiterStep(s, run[0]);
      ReportedStep(s, run[0]);
      SettledStepIff(s, run[0], token);
      StepKeepsSound(s, run[0]);
      RunKeepsWaiter(Apply(s, run[0]), run[1..], token);
    }
  }

  // ---------------------------------------------------------------- what a report means

  lemma InitWaits(start: System)
    requires Init(start)
    ensures Sound(start) && Reported(start) && WaiterFits(start) && forall token :: Settled(start, token)
  {
    InitSound(start);
  }

  /**
    As long as nobody removes the own request unrefused, the report is right and stays right: success means that a
    positive answer is in force and that the own request was answered, "rejected" that the own request was refused.
  */
  lemma WaiterTellsTheTruth(start: System, run: seq<Action>)
    requires Init(start) && Legal(start, run) && After(start, run).waiter.Done?
    requires Spared(start, run, After(start, run).waiter.own.token)
    ensures var end := After(start, run);
            var own := end.waiter.own.token;
            && (end.waiter.verdict == Succeeded ==> Committed(end) && (own in end.accepted <==> own !in end.rejected))
            && (end.waiter.verdict == Rejected ==> own in end.rejected && own !in end.accepted)
  {
    var own := After(start, run).waiter.own.token;
    InitWaits(start);
    RunKeepsSound(start, run);
    RunKeepsReported(start, run);
    SparedStaysSettled(start, run, own);
    RunKeepsWaiter(start, run, own);
  }

  /** A reported rejection is true exactly when nobody removed the own request unrefused. */
  lemma RejectionIsTrueIff(start: System, run: seq<Action>)
    requires Init(start) && Legal(start, run)
    requires After(start, run).waiter.Done? && After(start, run).waiter.verdict == Rejected
    ensures var end := After(start, run);
            end.waiter.own.token in end.rejected <==> Spared(start, run, end.waiter.own.token)
  {
    var own := After(start, run).waiter.own.token;
    InitWaits(start);
    if Spared(start, run, own) {
      WaiterTellsTheTruth(start, run);
    } else {
      RemovedIsGone(start, run, own);
    }
  }

  /**
    A reported success on a session that is still active is in force exactly when nobody removed the own request; once
    the directory is retired it is in force in any case.
  */
  lemma SuccessStandsIff(start: System, run: seq<Action>)
    requires Init(start) && Legal(start, run)
    requires After(start, run).waiter.Done? && After(start, run).waiter.verdict == Succeeded
    ensures var end := After(start, run);
            var own := end.waiter.own.token;
            && (end.disk.place == Active ==> own in end.accepted)
            && (end.disk.place == Active ==> (end.disk.Accepted() && Owns(end.disk, own) <==> Spared(start, run, own)))
            && (end.disk.place == Retired ==> Committed(end))
  {
    var own := After(start, run).waiter.own.token;
    InitWaits(start);
    RunKeepsSound(start, run);
    RunKeepsReported(start, run);
    if Spared(start, run, own) {
      SparedStaysSettled(start, run, own);
    } else {
      RemovedIsGone(start, run, own);
    }
  }

  /** Where success is read decides what it says of the initiator's own request. */
  lemma SuccessByRead(s: System)
    requires Sound(s) && Enabled(s, Look) && !s.waiter.NotWaiting?
    requires Apply(s, Look).waiter == Done(s.waiter.own, Succeeded)
    requires Settled(s, s.waiter.own.token) && Reported(s)
    ensures s.waiter.ReadAnswer? || s.waiter.ReadDirectory?
    ensures s.waiter.ReadAnswer? ==> s.waiter.own.token in s.accepted
    ensures s.waiter.ReadDirectory? ==> s.disk.place == Retired && s.waiter.own.token in s.accepted + s.rejected
  {
  }

  // ---------------------------------------------------------------- that it reports, and when

  /** A request that is no longer pending while the session is active has been left behind by the generation. */
  ghost predicate Behind(s: System, token: nat) {
    && (token in s.published && !Owns(s.disk, token) && s.disk.place == Active ==>
          s.disk.generation > s.published[token].generation)
    && (s.disk.Pending() && (s.holder == Compensating(UpsertAgain) || s.holder == Compensating(ClearAgain)) ==>
          s.disk.generation > s.disk.request.value.generation)
  }

  lemma BehindRestore(s: System, token: nat)
    requires Sound(s) && s.holder.Restoring? && Enabled(s, Proceed) && Behind(s, token)
    ensures Behind(Apply(s, Proceed), token)
  {
  }

  lemma BehindCompensation(s: System, token: nat)
    requires Sound(s) && s.holder.Compensating? && Enabled(s, Proceed) && Behind(s, token)
    ensures Behind(Apply(s, Proceed), token)
  {
  }

  lemma BehindForward(s: System, token: nat)
    requires Sound(s) && s.holder.Forward? && Enabled(s, Proceed) && Behind(s, token)
    ensures Behind(Apply(s, Proceed), token)
  {
  }

  lemma BehindOther(s: System, a: Action, token: nat)
    requires Sound(s) && Enabled(s, a) && !a.Proceed? && Behind(s, token)
    ensures Behind(Apply(s, a), token)
  {
  }

  lemma BehindStep(s: System, a: Action, token: nat)
    requires Sound(s) && Enabled(s, a) && Behind(s, token)
    ensures Behind(Apply(s, a), token)
  {
    if !a.Proceed? {
      BehindOther(s, a, token);
    } else if s.holder.Restoring? {
      BehindRestore(s, token);
    } else if s.holder.Compensating? {
      BehindCompensation(s, token);
    } else {
      BehindForward(s, token);
    }
  }

  lemma {:induction false} StaysBehind(s: System, run: seq<Action>, token: nat)
    requires Sound(s) && Legal(s, run) && Behind(s, token)
    ensures Behind(After(s, run), token)
    decreases |run|
  {
    if run != [] {
      BehindStep(s, run[0], token);
      StepKeepsSound(s, run[0]);
      StaysBehind(Apply(s, run[0]), run[1..], token);
    }
  }

  /** The waiter looks up to `n` times, and nobody else does anything. */
  function Looks(s: System, n: nat): System
    decreases n
  {
    if n == 0 || !Enabled(s, Look) then s else Looks(Apply(s, Look), n - 1)
  }

  /** Another command's request hides from the waiter that its own is gone. */
  predicate Overlooked(s: System) {
    (s.waiter.ReadAnswer? || s.waiter.ReadRequest?) && s.disk.Pending() && !Owns(s.disk, s.waiter.own.token)
  }

  /** What is true of a state in which the waiter has not reported yet. */
  ghost predicate Waits(s: System) {
    && Sound(s) && Reported(s) && WaiterFits(s) && !s.waiter.NotWaiting? && !s.waiter.Done?
    && Settled(s, s.waiter.own.token) && Behind(s, s.waiter.own.token)
  }

  /** An active session with a pending request and no answer to the own one: the waiter goes round and round. */
  lemma {:induction false} GoesRound(s: System, n: nat)
    requires (s.waiter.ReadAnswer? || s.waiter.ReadRequest?) && s.disk.place == Active && s.disk.Pending()
    requires s.disk.answer.Some? ==> s.disk.answer.value.control != s.waiter.own
    ensures !Looks(s, n).waiter.Done?
    decreases n
  {
    if n > 0 {
      GoesRound(Apply(s, Look), n - 1);
    }
  }

  lemma ToldOfAcceptance(s: System)
    requires Waits(s) && s.waiter.own.token in s.accepted
    ensures Looks(s, 4).waiter == Done(s.waiter.own, Succeeded)
  {
    var s1 := Apply(s, Look);
    if !s1.waiter.Done? {
      var s2 := Apply(s1, Look);
      assert !s2.waiter.Done? ==> Apply(s2, Look).waiter.Done?;
    }
  }

  lemma ToldOfRefusal(s: System)
    requires Waits(s) && s.waiter.own.token in s.rejected && s.disk.place == Active && !Overlooked(s)
    ensures Looks(s, 4).waiter == Done(s.waiter.own, Rejected)
  {
    var s1 := Apply(s, Look);
    if !s1.waiter.Done? {
      var s2 := Apply(s1, Look);
      if !s2.waiter.Done? {
        var s3 := Apply(s2, Look);
        assert !s3.waiter.Done? ==> Apply(s3, Look).waiter.Done?;
      }
    }
  }

  lemma ToldOfRetirement(s: System)
    requires Waits(s) && s.disk.place == Retired
    ensures Looks(s, 4).waiter == Done(s.waiter.own, if s.waiter.ReadState? then Failed else Succeeded)
  {
    var s1 := Apply(s, Look);
    if !s1.waiter.Done? {
      var s2 := Apply(s1, Look);
      assert !s2.waiter.Done? ==> Apply(s2, Look).waiter.Done?;
    }
  }

  /**
    When the waiter reports, and what.  Left alone it needs at most four reads once its request is answered: success
    if it was accepted, a rejection if it was refused and the session is active, unless another command's request
    hides that, and then it never reports; nor does it while there is no answer.  On a session that somebody else
    retired it reports success, or a failure if it was about to read the state.
  */
  lemma WaiterIsTold(start: System, run: seq<Action>, n: nat)
    requires Init(start) && Legal(start, run)
    requires var w := After(start, run).waiter; !w.NotWaiting? && !w.Done? && Spared(start, run, w.own.token)
    ensures var end := After(start, run);
            var own := end.waiter.own;
            && (own.token in end.accepted ==> Looks(end, 4).waiter == Done(own, Succeeded))
            && (own.token in end.rejected && end.disk.place == Active ==>
                  if Overlooked(end) then !Looks(end, n).waiter.Done?
                  else Looks(end, 4).waiter == Done(own, Rejected))
            && (own.token in end.rejected && end.disk.place == Retired ==>
                  Looks(end, 4).waiter == Done(own, if end.waiter.ReadState? then Failed else Succeeded))
            && (own.token !in end.accepted + end.rejected ==> !Looks(end, n).waiter.Done?)
  {
    var end := After(start, run);
    var own := end.waiter.own.token;
    InitWaits(start);
    RunKeepsSound(start, run);
    RunKeepsReported(start, run);
    SparedStaysSettled(start, run, own);
    RunKeepsWaiter(start, run, own);
    StaysBehind(start, run, own);
    if own in end.accepted {
      ToldOfAcceptance(end);
    } else if own !in end.rejected || (end.disk.place == Active && Overlooked(end)) {
      GoesRound(end, n);
    } else if end.disk.place == Active {
      ToldOfRefusal(end);
    } else {
      ToldOfRetirement(end);
    }
  }

  lemma {:induction false} FailureLasts(s: System, run: seq<Action>)
    requires Sound(s) && Legal(s, run)
    requires s.waiter.Done? && s.waiter.verdict == Failed ==> s.disk.place == Retired
    ensures var end := After(s, run); end.waiter.Done? && end.waiter.verdict == Failed ==> end.disk.place == Retired
    decreases |run|
  {
    if run != [] {
      StepKeepsSound(s, run[0]);
      FailureLasts(Apply(s, run[0]), run[1..]);
    }
  }

  /** A reported failure is not about a session that is still managed: over every legal run it means retired. */
  lemma FailureMeansRetired(start: System, run: seq<Action>)
    requires Init(start) && Legal(start, run)
    requires After(start, run).waiter.Done? && After(start, run).waiter.verdict == Failed
    ensures After(start, run).disk.place == Retired
  {
    InitSound(start);
    FailureLasts(start, run);
  }

  // ---------------------------------------------------------------- whose success it is

  /** An accepted request is removed. */
  predicate RemovedAccepted(s: System, run: seq<Action>, token: nat)
    requires Legal(s, run)
    decreases |run|
  {
    run != [] &&
    ((Removes(s, run[0], token) && s.disk.Accepted()) || RemovedAccepted(Apply(s, run[0]), run[1..], token))
  }

  /** No request but `token` is, or has been since it was pending, in the way. */
  ghost predicate OnlyOwn(s: System, token: nat) {
    && !s.holder.Creating? && (s.disk.Pending() ==> Owns(s.disk, token))
    && (s.disk.place == Retired ==> token in s.accepted)
  }

  lemma OnlyOwnStep(s: System, a: Action, token: nat)
    requires Sound(s) && Enabled(s, a) && OnlyOwn(s, token) && !a.BeginRequest?
    ensures OnlyOwn(Apply(s, a), token)
  {
  }

  lemma {:induction false} OnlyOwnStays(s: System, run: seq<Action>, token: nat)
    requires Sound(s) && Legal(s, run) && OnlyOwn(s, token) && forall a | a in run :: !a.BeginRequest?
    ensures OnlyOwn(After(s, run), token)
    decreases |run|
  {
    if run != [] {
      OnlyOwnStep(s, run[0], token);
      StepKeepsSound(s, run[0]);
      assert forall a | a in run[1..] :: a in run;
      OnlyOwnStays(Apply(s, run[0]), run[1..], token);
    }
  }

  lemma {:induction false} RemovedWasAccepted(s: System, run: seq<Action>, token: nat)
    requires Sound(s) && Legal(s, run) && RemovedAccepted(s, run, token)
    ensures token in After(s, run).accepted
    decreases |run|
  {
    StepKeepsSound(s, run[0]);
    if Removes(s, run[0], token) && s.disk.Accepted() {
      HistoryGrows(s, run);
    } else {
      RemovedWasAccepted(Apply(s, run[0]), run[1..], token);
    }
  }

  /** A new request begins only when this one is not in force. */
  lemma {:induction false} NewRequestMeansLost(s: System, run: seq<Action>, token: nat)
    requires Sound(s) && Legal(s, run) && token in s.published && !RemovedAccepted(s, run, token)
    requires token in s.accepted && s.disk.place == Active ==> Owns(s.disk, token)
    requires exists a :: a in run && a.BeginRequest?
    ensures token !in After(s, run).accepted
    decreases |run|
  {
    if run[0].BeginRequest? {
      PastStays(s, run, token);
    } else {
      StepKeepsSound(s, run[0]);
      NewRequestMeansLost(Apply(s, run[0]), run[1..], token);
    }
  }

  /**
    A reported success is the initiator's own exactly when no other request was begun since its own was pending, or its
    own was accepted and then removed.
  */
  lemma SuccessIsOwnIff(start: System, first: seq<Action>, second: seq<Action>)
    requires Init(start) && Legal(start, first) && Legal(After(start, first), second)
    requires var end := After(After(start, first), second);
             && end.waiter.Done? && end.waiter.verdict == Succeeded
             && After(start, first).disk.request == Some(end.waiter.own)
    ensures var middle := After(start, first);
            var end := After(middle, second);
            var own := end.waiter.own.token;
            own in end.accepted <==>
            (forall a | a in second :: !a.BeginRequest?) || RemovedAccepted(middle, second, own)
  {
    var middle := After(start, first);
    var own := After(middle, second).waiter.own.token;
    InitWaits(start);
    RunKeepsSound(start, first);
    RunKeepsReported(start, first);
    RunKeepsReported(middle, second);
    if RemovedAccepted(middle, second, own) {
      RemovedWasAccepted(middle, second, own);
    } else if forall a | a in second :: !a.BeginRequest? {
      OnlyOwnStays(middle, second, own);
    } else {
      NewRequestMeansLost(middle, second, own);
    }
  }
}
