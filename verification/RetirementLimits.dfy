/**
  Promises that fail when other actors touch a pending request: for each a concrete run, and the exact
  condition under which the promise holds.
*/
module RetirementLimits {
  import opened Common
  import opened RetirementProtocol
  import opened RetirementSafety
  import opened RetirementTheorems
  import opened RetirementWaiter

  const FRESH: System :=
    System(Disk(Active, 1, 1, None, None, true, false, true, Some(1)), Some(7), Free, false, NotWaiting, {}, map[],
        {}, {})

  /** One more action at the end of a run. */
  lemma {:induction false} Extend(s: System, run: seq<Action>, a: Action)
    requires Legal(s, run) && Enabled(After(s, run), a)
    ensures Legal(s, run + [a]) && After(s, run + [a]) == Apply(After(s, run), a)
    decreases |run|
  {
    if run == [] {
      assert run + [a] == [a] && [a][1..] == [];
    } else {
      assert (run + [a])[1..] == run[1..] + [a];
      Extend(Apply(s, run[0]), run[1..], a);
    }
  }

  /** A restoring holder that only proceeds, `n` times, from the state `at` where the run ends. */
  lemma {:induction false} ExtendProceed(s: System, run: seq<Action>, at: System, n: nat) returns (longer: seq<Action>)
    requires Legal(s, run) && After(s, run) == at && Proceeds(at, n)
    ensures Legal(s, longer) && After(s, longer) == Steps(at, n)
    ensures forall a | a in longer :: a in run || a == Proceed
    decreases n
  {
    longer := run;
    if n > 0 {
      Extend(s, run, Proceed);
      longer := ExtendProceed(s, run + [Proceed], Apply(at, Proceed), n - 1);
    }
  }

  /** The holder can take `n` steps. */
  predicate Proceeds(s: System, n: nat)
    decreases n
  {
    n == 0 || (Enabled(s, Proceed) && Proceeds(Apply(s, Proceed), n - 1))
  }

  function Steps(s: System, n: nat): System
    decreases n
  {
    if n > 0 && Enabled(s, Proceed) then Steps(Apply(s, Proceed), n - 1) else s
  }

  // ---------------------------------------------------------------- the generation check

  /**
    Two compactions while a request is pending strand it: recovery refuses to plan, and no run without
    a compensating command changes that.  `RecoveryStartsIff` gives the exact condition.
  */
  lemma CompactionStrandsRequest() returns (run: seq<Action>)
    ensures Init(FRESH) && Legal(FRESH, run)
    ensures var s := After(FRESH, run);
            s.holder == Free && s.disk.Pending() && !Recoverable(s.disk)
  {
    run := [];
    Extend(FRESH, run, BeginRequest(Control(0, 1, 1, 7), false));
    run := run + [BeginRequest(Control(0, 1, 1, 7), false)];
    Extend(FRESH, run, PublishRequest);
    run := run + [PublishRequest];
    Extend(FRESH, run, Compact);
    run := run + [Compact];
    Extend(FRESH, run, Compact);
    run := run + [Compact];
  }

  /** A request that recovery has just refused. */
  const REFUSED: System :=
    FRESH.(disk := FRESH.disk.(request := Some(Control(0, 1, 1, 7)), answer := Some(Answer(Control(0, 1, 1, 7), true))),
           holder := Restoring(ReturnSnapshot, 2), used := {0}, published := map[0 := Control(0, 1, 1, 7)],
               rejected := {0})

  lemma RefusedOnce() returns (run: seq<Action>)
    ensures Legal(FRESH, run) && After(FRESH, run) == REFUSED
  {
    var c := Control(0, 1, 1, 7);
    run := [];
    Extend(FRESH, run, BeginRequest(c, false));
    run := run + [BeginRequest(c, false)];
    Extend(FRESH, run, PublishRequest);
    run := run + [PublishRequest];
    Extend(FRESH, run, Refuse(Recovery));
    run := run + [Refuse(Recovery)];
  }

  /** The same request after its restore has run to the end: the generation has advanced. */
  const RESTORED: System :=
    REFUSED.(disk := Disk(Active, 2, 2, None, None, true, false, true, Some(2)), holder := Free)

  lemma RestoredOnce() returns (run: seq<Action>)
    ensures Legal(FRESH, run) && After(FRESH, run) == RESTORED
  {
    run := RefusedOnce();
    RestoreSteps(NotWaiting);
    assert REFUSED.(waiter := NotWaiting) == REFUSED && RESTORED.(waiter := NotWaiting) == RESTORED;
    run := ExtendProceed(FRESH, run, REFUSED, 6);
  }

  // ---------------------------------------------------------------- whose success the waiter reports

  lemma RefusedWhileWaiting() returns (run: seq<Action>)
    ensures Legal(FRESH, run) && forall a | a in run :: !a.Compensate?
    ensures After(FRESH, run) == REFUSED.(waiter := ReadRequest(Control(0, 1, 1, 7)))
  {
    var c := Control(0, 1, 1, 7);
    run := [];
    Extend(FRESH, run, BeginRequest(c, false));
    run := run + [BeginRequest(c, false)];
    Extend(FRESH, run, PublishRequest);
    run := run + [PublishRequest];
    Extend(FRESH, run, StartWaiting(c));
    run := run + [StartWaiting(c)];
    Extend(FRESH, run, Look);
    run := run + [Look];
    Extend(FRESH, run, Refuse(Recovery));
    run := run + [Refuse(Recovery)];
  }

  /** The waiter has looked for an answer, then its request is refused and restored. */
  lemma WaitThroughRestore() returns (run: seq<Action>)
    ensures Legal(FRESH, run) && forall a | a in run :: !a.Compensate?
    ensures After(FRESH, run) == RESTORED.(waiter := ReadDirectory(Control(0, 1, 1, 7)))
  {
    var waiter := ReadRequest(Control(0, 1, 1, 7));
    run := RefusedWhileWaiting();
    RestoreSteps(waiter);
    run := ExtendProceed(FRESH, run, REFUSED.(waiter := waiter), 6);
    Extend(FRESH, run, Look);
    run := run + [Look];
  }

  lemma RestoreSteps(w: Waiter)
    ensures Proceeds(REFUSED.(waiter := w), 6) && Steps(REFUSED.(waiter := w), 6) == RESTORED.(waiter := w)
  {
    var s1 := Apply(REFUSED.(waiter := w), Proceed);
    var s2 := Apply(s1, Proceed);
    var s3 := Apply(s2, Proceed);
    var s4 := Apply(s3, Proceed);
    var s5 := Apply(s4, Proceed);
    assert Apply(s5, Proceed) == RESTORED.(waiter := w);
    assert Proceeds(s4, 2) && Steps(s4, 2) == RESTORED.(waiter := w);
    assert Proceeds(s2, 4) && Steps(s2, 4) == RESTORED.(waiter := w);
  }

  /**
    The waiter has seen that its request is gone.  Before it looks at the directory another command's request is
    accepted and the directory retired: the waiter reports success although its own request was refused.
    `SuccessIsOwnIff` gives the exact condition.
  */
  lemma WaiterReportsAnothersSuccess() returns (run: seq<Action>)
    ensures Init(FRESH) && Legal(FRESH, run) && forall a | a in run :: !a.Compensate?
    ensures var s := After(FRESH, run);
            s.waiter == Done(Control(0, 1, 1, 7), Succeeded) && 0 in s.rejected && 0 !in s.accepted
  {
    run := WaitThroughRestore();
    var c := Control(1, 2, 2, 7);
    Extend(FRESH, run, BeginRequest(c, false));
    run := run + [BeginRequest(c, false)];
    Extend(FRESH, run, PublishRequest);
    run := run + [PublishRequest];
    Extend(FRESH, run, Accept(Recovery));
    run := run + [Accept(Recovery)];
    Extend(FRESH, run, Proceed);
    run := run + [Proceed];
    Extend(FRESH, run, Look);
    run := run + [Look];
  }

  // ---------------------------------------------------------------- a compensation behind the waiter's back

  const SECOND: Control := Control(1, 2, 2, 7)

  /** A second request was accepted, and a late compensation for the first has republished the state and removed it. */
  const REMOVED: System :=
    RESTORED.(disk := Disk(Active, 3, 3, None, Some(Answer(SECOND, false)), true, false, true, Some(3)),
              holder := Compensating(DropAgain), used := {0, 1},
              published := map[0 := Control(0, 1, 1, 7), 1 := SECOND], accepted := {1})

  /** The second initiator is waiting meanwhile; it may have looked once (`looked`) before its request was accepted. */
  lemma RemovedWhileWaiting(looked: bool) returns (run: seq<Action>)
    ensures Legal(FRESH, run)
    ensures After(FRESH, run) == REMOVED.(waiter := if looked then ReadRequest(SECOND) else ReadAnswer(SECOND))
  {
    run := RestoredOnce();
    Extend(FRESH, run, BeginRequest(SECOND, false));
    run := run + [BeginRequest(SECOND, false)];
    Extend(FRESH, run, PublishRequest);
    run := run + [PublishRequest];
    Extend(FRESH, run, StartWaiting(SECOND));
    run := run + [StartWaiting(SECOND)];
    if looked {
      Extend(FRESH, run, Look);
      run := run + [Look];
    }
    run := AcceptThenCompensate(run, if looked then ReadRequest(SECOND) else ReadAnswer(SECOND));
  }

  /** The second request pending, before any answer. */
  const ASKED: System :=
    RESTORED.(disk := RESTORED.disk.(request := Some(SECOND)), used := {0, 1},
              published := map[0 := Control(0, 1, 1, 7), 1 := SECOND])

  lemma AcceptThenCompensate(run: seq<Action>, w: Waiter) returns (longer: seq<Action>)
    requires Legal(FRESH, run) && After(FRESH, run) == ASKED.(waiter := w)
    ensures Legal(FRESH, longer) && After(FRESH, longer) == REMOVED.(waiter := w)
  {
    longer := run;
    Extend(FRESH, longer, Accept(Cutover));
    longer := longer + [Accept(Cutover)];
    Extend(FRESH, longer, Compensate(0));
    longer := longer + [Compensate(0)];
    Extend(FRESH, longer, Proceed);
    longer := longer + [Proceed];
    Extend(FRESH, longer, Proceed);
    longer := longer + [Proceed];
    Extend(FRESH, longer, Proceed);
    longer := longer + [Proceed];
  }

  /**
    The initiator whose accepted request was removed reports that it was rejected.  `RejectionIsTrueIff` gives the exact
    condition.
  */
  lemma WaiterReportsFalseRejection() returns (run: seq<Action>)
    ensures Init(FRESH) && Legal(FRESH, run)
    ensures var s := After(FRESH, run); s.waiter == Done(SECOND, Rejected) && 1 in s.accepted && 1 !in s.rejected
  {
    run := RemovedWhileWaiting(true);
    Extend(FRESH, run, Look);
    run := run + [Look];
    Extend(FRESH, run, Look);
    run := run + [Look];
    Extend(FRESH, run, Look);
    run := run + [Look];
  }

  /**
    Between the removal of the request and that of the answer the same initiator reports success, although managed
    authority is back.  `SuccessStandsIff` gives the exact condition.
  */
  lemma WaiterReportsUndoneSuccess() returns (run: seq<Action>)
    ensures Init(FRESH) && Legal(FRESH, run)
    ensures var s := After(FRESH, run); s.waiter == Done(SECOND, Succeeded) && !Committed(s)
  {
    run := RemovedWhileWaiting(false);
    Extend(FRESH, run, Look);
    run := run + [Look];
  }

  /**
    The waiter's request is refused and restored, and another command's request is pending before the waiter looks
    again: it is never told.  `WaiterIsTold` gives the exact condition.
  */
  lemma WaiterIsNeverTold() returns (run: seq<Action>)
    ensures Init(FRESH) && Legal(FRESH, run) && forall a | a in run :: !a.Compensate?
    ensures var s := After(FRESH, run); 0 in s.rejected && s.waiter.ReadRequest? && s.waiter.own.token == 0
    ensures forall n: nat :: !Looks(After(FRESH, run), n).waiter.Done?
  {
    var waiter := ReadRequest(Control(0, 1, 1, 7));
    run := RefusedWhileWaiting();
    RestoreSteps(waiter);
    run := ExtendProceed(FRESH, run, REFUSED.(waiter := waiter), 6);
    Extend(FRESH, run, BeginRequest(SECOND, false));
    run := run + [BeginRequest(SECOND, false)];
    Extend(FRESH, run, PublishRequest);
    run := run + [PublishRequest];
    var last := After(FRESH, run);
    forall n: nat
      ensures !Looks(last, n).waiter.Done?
    {
      GoesRound(last, n);
    }
  }

  // ---------------------------------------------------------------- compensation and tokens

  /**
    The compensating command does not compare tokens.  A late compensation for a refused request can
    meet a request that another command published and the daemon already accepted: it republishes the
    managed state and removes that request.
  */
  lemma LateCompensationUndoesCommit() returns (run: seq<Action>, more: seq<Action>)
    ensures Init(FRESH) && Legal(FRESH, run) && Committed(After(FRESH, run))
    ensures Legal(After(FRESH, run), more)
    ensures var end := After(After(FRESH, run), more);
            && !Committed(end) && 1 in end.accepted
            && end.disk.place == Active && end.disk.request.None? && end.disk.generation == 3
  {
    run := RestoredOnce();
    var c := Control(1, 2, 2, 7);
    Extend(FRESH, run, BeginRequest(c, false));
    run := run + [BeginRequest(c, false)];
    Extend(FRESH, run, PublishRequest);
    run := run + [PublishRequest];
    Extend(FRESH, run, Accept(Cutover));
    run := run + [Accept(Cutover)];
    var s := After(FRESH, run);
    more := [];
    Extend(s, more, Compensate(0));
    more := more + [Compensate(0)];
    Extend(s, more, Proceed);
    more := more + [Proceed];
    Extend(s, more, Proceed);
    more := more + [Proceed];
    Extend(s, more, Proceed);
    more := more + [Proceed];
  }

  /** The state after the compensating command has run to its end. */
  function Compensated(s: System, own: nat): System
    requires Enabled(s, Compensate(own))
  {
    Steps(Apply(s, Compensate(own)), 4)
  }

  /**
    A compensation undoes a commit exactly when the pending request is already accepted; comparing the
    pending token with the command's own would rule that out.
  */
  lemma CompensationUndoesCommitIff(s: System, own: nat)
    requires Sound(s) && Enabled(s, Compensate(own))
    ensures Committed(s) && !Committed(Compensated(s, own)) <==> s.disk.Accepted()
    ensures s.disk.Accepted() ==> s.disk.request.value.token != own
    ensures Compensated(s, own).holder == Free && Compensated(s, own).disk.request.None?
    ensures Compensated(s, own).disk.generation == s.disk.generation + 1
  {
    var s0 := Apply(s, Compensate(own));
    var s1 := Apply(s0, Proceed);
    var s2 := Apply(s1, Proceed);
    var s3 := Apply(s2, Proceed);
    assert Steps(s0, 4) == Steps(s2, 2) == Apply(s3, Proceed);
  }

  /** A compensation that dies after republishing a restored state strands its own request. */
  lemma CompensationStrandsIff(s: System, own: nat)
    requires Sound(s) && Enabled(s, Compensate(own)) && s.disk.Refused()
    ensures var begun := Apply(s, Compensate(own));
            && Enabled(begun, Proceed)
            && (Recoverable(Apply(Apply(begun, Proceed), Crash).disk) <==>
                s.disk.generation == s.disk.request.value.generation)
  {
  }
}
