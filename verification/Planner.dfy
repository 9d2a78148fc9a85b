/**
  The enrollment planner: which native rollouts may be taken under management in this cycle.  A rollout must have
  looked the same for long enough, and the batch must fit the storage budget at every step.
*/
module Planner {
  import opened Common

  type Id = nat

  type Path = nat

  const MAX_INT64: int := 0x7FFF_FFFF_FFFF_FFFF

  const HOUR: int := 3_600_000_000_000   // nanoseconds

  datatype Reason =
    | AlreadyManaged | NotArchived | InvalidPath | NamespaceInactive | MountWarming | StabilityPending | FileChanged
    | WriterActive | DoctorUnhealthy | MountUnhealthy | NamespaceDisabled | PromotionStage | InsufficientBudget
    | BatchLimit

  datatype Policy = Policy(stableFor: int, batchSize: int, archivedOnly: bool)

  datatype Gates = Gates(
    doctorHealthy: bool, mountHealthy: bool, canonicalNamespace: bool, namespaceActive: bool, namespaceReady: bool,
    enrollmentAllowed: bool)

  /** `valid`: the id is safe and the path absolute. */
  datatype Session = Session(id: Id, path: Path, archived: bool, valid: bool, updatedAt: nat)

  datatype File = File(size: int, modified: int)

  datatype Observation = Observation(path: Path, file: File, stableSince: int)

  type Observations = map<Id, Observation>

  datatype Projection = Projection(persistent: int, temporary: int)

  datatype Answer = Fits | Exceeded | Unknown

  /**
    One planning cycle.  `look` is what is at a path (None: not a regular file), `writer` is the writer probe (an
    inner None: it failed), `budget` the storage check.
  */
  datatype Input = Input(
    sessions: seq<Session>, managed: set<Id>, previous: Observations, now: int, policy: Policy, gates: Gates,
    look: Path -> Option<File>, writer: Option<Session -> Option<bool>>, budget: Option<Projection -> Answer>)
  {
    function StableFor(): (r: int)
      ensures r > 0 && (r == policy.stableFor || (policy.stableFor <= 0 && r == HOUR))
    {
      if policy.stableFor <= 0 then HOUR else policy.stableFor
    }

    function BatchSize(): (r: int)
      ensures r > 0 && (r == policy.batchSize || (policy.batchSize <= 0 && r == 1))
    {
      if policy.batchSize <= 0 then 1 else policy.batchSize
    }
  }

  datatype Decision = Decision(session: Session, file: Option<File>, selected: bool, reasons: seq<Reason>)

  datatype Failure = ProbeFailed | EstimateOverflow | BatchOverflow | BudgetFailed | Cancelled

  datatype Result = Plan(decisions: seq<Decision>, chosen: seq<Decision>,
      observations: Observations) | Failed(why: Failure)

  // ---------------------------------------------------------------- one session

  /** The checks that come before the file is looked at. */
  function Early(input: Input, s: Session): Option<Reason> {
    if s.id in input.managed then Some(AlreadyManaged)
    else if !s.valid then Some(InvalidPath)
    else if !input.gates.mountHealthy then Some(MountUnhealthy)
    else if !input.gates.canonicalNamespace then Some(NamespaceDisabled)
    else if !input.gates.namespaceActive then Some(NamespaceInactive)
    else if !input.gates.namespaceReady then Some(MountWarming)
    else if input.look(s.path).None? then Some(InvalidPath)
    else None
  }

  predicate Unchanged(input: Input, s: Session, file: File) {
    s.id in input.previous && input.previous[s.id].path == s.path && input.previous[s.id].file == file
  }

  function Observe(input: Input, s: Session, file: File): Observation {
    Observation(s.path, file, if Unchanged(input, s, file) then input.previous[s.id].stableSince else input.now)
  }

  /** Seen before, unchanged since, and for long enough, both by observation and by modification time. */
  predicate Stable(input: Input, s: Session, file: File) {
    && Unchanged(input, s, file)
    && input.now - input.previous[s.id].stableSince >= input.StableFor()
    && input.now - file.modified >= input.StableFor()
  }

  predicate Busy(input: Input, s: Session) {
    input.writer.Some? && input.writer.value(s) == Some(true)
  }

  /** May be enrolled, batch and budget apart. */
  predicate Ready(input: Input, s: Session, file: File) {
    && Early(input, s).None? && input.look(s.path) == Some(file)
    && (input.policy.archivedOnly ==> s.archived) && input.gates.doctorHealthy && input.gates.enrollmentAllowed
    && !Busy(input, s) && Stable(input, s, file)
  }

  function Because(condition: bool, reason: Reason): seq<Reason> {
    if condition then [reason] else []
  }

  function Reasons(input: Input, s: Session, file: File): (r: seq<Reason>)
    requires Early(input, s).None? && input.look(s.path) == Some(file)
    ensures r == [] <==> Ready(input, s, file)
  {
    Because(input.policy.archivedOnly && !s.archived, NotArchived)
    + Because(!input.gates.doctorHealthy, DoctorUnhealthy)
    + Because(!input.gates.enrollmentAllowed, PromotionStage)
    + Because(Busy(input, s), WriterActive)
    + Because(s.id !in input.previous || (Unchanged(input, s, file) && !Stable(input, s, file)), StabilityPending)
    + Because(s.id in input.previous && !Unchanged(input, s, file), FileChanged)
  }

  // ---------------------------------------------------------------- what a reason says

  /** What each reason says about a session, whatever else is in its way; batch and budget say nothing about it. */
  ghost predicate Holds(input: Input, s: Session, reason: Reason) {
    match reason
    case AlreadyManaged => s.id in input.managed
    case InvalidPath => !s.valid || input.look(s.path).None?
    case MountUnhealthy => !input.gates.mountHealthy
    case NamespaceDisabled => !input.gates.canonicalNamespace
    case NamespaceInactive => !input.gates.namespaceActive
    case MountWarming => !input.gates.namespaceReady
    case NotArchived => input.policy.archivedOnly && !s.archived
    case DoctorUnhealthy => !input.gates.doctorHealthy
    case PromotionStage => !input.gates.enrollmentAllowed
    case WriterActive => input.writer.Some? && input.writer.value(s) == Some(true)
    case FileChanged => Seen(input, s) && !SeenLike(input, s)
    case StabilityPending =>
      || !Seen(input, s)
      || (SeenLike(input, s) &&
          (input.now - input.previous[s.id].stableSince < input.StableFor() ||
           input.now - input.previous[s.id].file.modified < input.StableFor()))
    case InsufficientBudget => false
    case BatchLimit => false
  }

  ghost predicate Seen(input: Input, s: Session) {
    s.id in input.previous
  }

  /** The cycle before saw the same path, size and modification time as are there now. */
  ghost predicate SeenLike(input: Input, s: Session) {
    && s.id in input.previous && input.previous[s.id].path == s.path
    && input.look(s.path).Some? && input.previous[s.id].file.size == input.look(s.path).value.size
    && input.previous[s.id].file.modified == input.look(s.path).value.modified
  }

  const GATES: seq<Reason> := [MountUnhealthy, NamespaceDisabled, NamespaceInactive, MountWarming]

  const LATE: seq<Reason> :=
    [NotArchived, DoctorUnhealthy, PromotionStage, WriterActive, StabilityPending, FileChanged]

  /** A session fails the early checks exactly when one of their reasons holds; the first that holds is given. */
  lemma EarlyTells(input: Input, s: Session)
    ensures Early(input, s).None? <==>
            !Holds(input, s, AlreadyManaged) && !Holds(input, s, InvalidPath) &&
            forall i | 0 <= i < |GATES| :: !Holds(input, s, GATES[i])
    ensures Early(input, s) == Some(AlreadyManaged) <==> Holds(input, s, AlreadyManaged)
    ensures forall i | 0 <= i < |GATES| ::
              Early(input, s) == Some(GATES[i]) <==>
              && !Holds(input, s, AlreadyManaged) && s.valid && Holds(input, s, GATES[i])
              && forall j | 0 <= j < i :: !Holds(input, s, GATES[j])
    ensures Early(input, s).Some? ==>
              Early(input, s).value == AlreadyManaged || Early(input, s).value == InvalidPath ||
              Early(input, s).value in GATES
  {
    assert GATES[0] == MountUnhealthy && GATES[1] == NamespaceDisabled && GATES[2] == NamespaceInactive;
    assert GATES[3] == MountWarming;
  }

  /** Past the early checks, exactly the reasons that hold are given. */
  lemma LateTells(input: Input, s: Session, file: File)
    requires Early(input, s).None? && input.look(s.path) == Some(file)
    ensures forall reason :: reason in Reasons(input, s, file) <==> reason in LATE && Holds(input, s, reason)
    ensures Ready(input, s, file) <==> forall reason | reason in LATE :: !Holds(input, s, reason)
  {
    forall reason
      ensures reason in Reasons(input, s, file) <==> reason in LATE && Holds(input, s, reason)
    {
      OneReason(input, s, file, reason);
    }
    var given := Reasons(input, s, file);
    if given != [] {
      assert given[0] in given;
    }
  }

  lemma OneReason(input: Input, s: Session, file: File, reason: Reason)
    requires Early(input, s).None? && input.look(s.path) == Some(file)
    ensures reason in Reasons(input, s, file) <==> reason in LATE && Holds(input, s, reason)
  {
    assert LATE[0] == NotArchived && LATE[1] == DoctorUnhealthy && LATE[2] == PromotionStage;
    assert LATE[3] == WriterActive && LATE[4] == StabilityPending && LATE[5] == FileChanged;
  }

  // ---------------------------------------------------------------- bytes

  /** The persistent estimate: three times the file and its overhead, in 64-bit arithmetic. */
  function PersistentBytes(raw: int): (r: Option<int>)
    requires raw <= MAX_INT64
    ensures r.Some? <==> 0 <= raw && 3 * (raw + raw / 16 + 1048576) <= MAX_INT64
    ensures r.Some? ==> r.value == 3 * (raw + raw / 16 + 1048576)
  {
    if raw < 0 then None
    else
      var overhead := raw / 16 + 1048576;
      if raw > MAX_INT64 - overhead then None
      else
        var estimated := raw + overhead;
        if estimated > MAX_INT64 / 3 then None else Some(estimated * 3)
  }

  function AddBytes(left: int, right: int): (r: Option<int>)
    requires 0 <= left <= MAX_INT64 && 0 <= right <= MAX_INT64
    ensures r == if left + right <= MAX_INT64 then Some(left + right) else None
  {
    if right > MAX_INT64 - left then None else Some(left + right)
  }

  ghost predicate Estimable(d: Decision) {
    d.file.Some? && d.file.value.size <= MAX_INT64 && PersistentBytes(d.file.value.size).Some?
  }

  ghost function Cost(d: Decision): int {
    if Estimable(d) then PersistentBytes(d.file.value.size).value else 0
  }

  /** The persistent bytes of a batch. */
  ghost function BatchBytes(chosen: seq<Decision>): int {
    if chosen == [] then 0 else BatchBytes(chosen[..|chosen| - 1]) + Cost(chosen[|chosen| - 1])
  }

  // ---------------------------------------------------------------- the plan

  /** This much was put to the budget with the last decision of the batch, and it was found to fit. */
  ghost predicate PrefixFits(input: Input, batch: seq<Decision>)
    requires batch != []
  {
    var last := batch[|batch| - 1];
    && Estimable(last) && input.budget.Some? && 0 <= BatchBytes(batch) <= MAX_INT64
    && input.budget.value(Projection(BatchBytes(batch), last.file.value.size)) == Fits
  }

  /** Every prefix of the batch fits 64 bits and the budget. */
  ghost predicate Afforded(input: Input, chosen: seq<Decision>) {
    forall i | 0 < i <= |chosen| :: PrefixFits(input, chosen[..i])
  }

  /** What a decision says about its session. */
  ghost predicate Right(input: Input, s: Session, d: Decision) {
    && d.session == s
    && (d.selected <==> d.reasons == [])
    && (d.selected ==> d.file.Some? && Ready(input, s, d.file.value))
    && (Early(input, s).Some? ==> d.reasons == [Early(input, s).value] && d.file.None?)
    && (Early(input, s).None? ==>
          && d.file == input.look(s.path)
          && (if Ready(input, s, d.file.value) then d.reasons in {[], [BatchLimit], [InsufficientBudget]}
              else d.reasons == Reasons(input, s, d.file.value)))
  }

  function Chosen(decisions: seq<Decision>): seq<Decision> {
    if decisions == [] then []
    else
      var n := |decisions| - 1;
      Chosen(decisions[..n]) + (if decisions[n].selected then [decisions[n]] else [])
  }

  /** A ready session is left out only because the batch was full or the budget did not take it. */
  ghost predicate LeftOutRightly(input: Input, before: seq<Decision>, d: Decision) {
    && (d.reasons == [BatchLimit] ==> |before| >= input.BatchSize())
    && (d.reasons == [InsufficientBudget] ==> |before| < input.BatchSize())
    && (d.reasons == [InsufficientBudget] && input.budget.Some? ==>
          && Estimable(d)
          && input.budget.value(Projection(BatchBytes(before) + Cost(d), d.file.value.size)) == Exceeded)
  }

  /** What session `s` leaves in the observations of this cycle. */
  ghost predicate Recorded(input: Input, s: Session, o: Observation) {
    Early(input, s).None? && o == Observe(input, s, input.look(s.path).value)
  }

  /** Exactly the sessions that passed the early checks are observed. */
  ghost predicate Observed(input: Input, i: nat, observations: Observations)
    requires i <= |input.sessions|
  {
    && (forall id | id in observations ::
          exists k | 0 <= k < i :: input.sessions[k].id == id && Recorded(input, input.sessions[k], observations[id]))
    && (forall k | 0 <= k < i && Early(input, input.sessions[k]).None? :: input.sessions[k].id in observations)
  }

  /** A ready session whose estimate does not fit 64 bits together with the batch. */
  ghost predicate TooMuch(input: Input, batch: seq<Decision>, s: Session, file: File) {
    && Afforded(input, batch) && Ready(input, s, file) && file.size <= MAX_INT64 && PersistentBytes(file.size).Some?
    && BatchBytes(batch) + PersistentBytes(file.size).value > MAX_INT64
  }

  /** Why a session, with this batch before it, makes the cycle fail. */
  ghost predicate Causes(input: Input, s: Session, file: File, batch: seq<Decision>, why: Failure) {
    match why
    case ProbeFailed => input.writer.Some? && input.writer.value(s).None?
    case EstimateOverflow => Ready(input, s, file) && file.size <= MAX_INT64 && PersistentBytes(file.size).None?
    case BatchOverflow => TooMuch(input, batch, s, file)
    case BudgetFailed =>
      && Ready(input, s, file) && |batch| < input.BatchSize() && input.budget.Some?
      && file.size <= MAX_INT64 && PersistentBytes(file.size).Some?
      && input.budget.value(Projection(BatchBytes(batch) + PersistentBytes(file.size).value, file.size)) == Unknown
    case Cancelled => false
  }

  /** Nothing about session `s`, with this batch before it, makes the cycle fail. */
  ghost predicate Harmless(input: Input, s: Session, batch: seq<Decision>) {
    Early(input, s).None? ==> forall why :: !Causes(input, s, input.look(s.path).value, batch, why)
  }

  ghost predicate PlanFits(input: Input, i: nat, decisions: seq<Decision>, chosen: seq<Decision>)
    requires i <= |input.sessions|
  {
    && |decisions| == i && chosen == Chosen(decisions)
    && |chosen| <= input.BatchSize() && Afforded(input, chosen)
    && forall k | 0 <= k < i ::
         && Right(input, input.sessions[k], decisions[k]) && LeftOutRightly(input, Chosen(decisions[..k]), decisions[k])
         && Harmless(input, input.sessions[k], Chosen(decisions[..k]))
  }

  /** File sizes are 64-bit numbers. */
  ghost predicate Sizes(input: Input) {
    forall p :: input.look(p).Some? ==> input.look(p).value.size <= MAX_INT64
  }

  lemma BatchGrows(chosen: seq<Decision>, d: Decision)
    ensures BatchBytes(chosen + [d]) == BatchBytes(chosen) + Cost(d)
  {
    assert (chosen + [d])[..|chosen|] == chosen;
  }

  lemma AffordOneMore(input: Input, chosen: seq<Decision>, d: Decision)
    requires Afforded(input, chosen) && PrefixFits(input, chosen + [d])
    ensures Afforded(input, chosen + [d])
  {
    var all := chosen + [d];
    forall i | 0 < i <= |all|
      ensures PrefixFits(input, all[..i])
    {
      if i <= |chosen| {
        assert all[..i] == chosen[..i];
      } else {
        assert all[..i] == all;
      }
    }
  }

  lemma NextDecision(input: Input, i: nat, decisions: seq<Decision>, chosen: seq<Decision>, d: Decision)
    requires i < |input.sessions| && PlanFits(input, i, decisions, chosen)
    requires Right(input, input.sessions[i], d) && LeftOutRightly(input, chosen, d)
    requires Harmless(input, input.sessions[i], chosen)
    requires d.selected ==> |chosen| < input.BatchSize() && Afforded(input, chosen + [d])
    ensures PlanFits(input, i + 1, decisions + [d], if d.selected then chosen + [d] else chosen)
  {
    var all := decisions + [d];
    assert all[..i] == decisions;
    forall k | 0 <= k < i + 1
      ensures Right(input, input.sessions[k], all[k]) && LeftOutRightly(input, Chosen(all[..k]), all[k])
      ensures Harmless(input, input.sessions[k], Chosen(all[..k]))
    {
      if k < i {
        assert all[..k] == decisions[..k];
      }
    }
  }

  lemma ObserveOneMore(input: Input, i: nat, observations: Observations, file: File)
    requires i < |input.sessions| && Observed(input, i, observations)
    requires Early(input, input.sessions[i]).None? && input.look(input.sessions[i].path) == Some(file)
    ensures var s := input.sessions[i];
            Observed(input, i + 1, observations[s.id := Observe(input, s, file)])
  {
    var s := input.sessions[i];
    var more := observations[s.id := Observe(input, s, file)];
    forall id | id in more
      ensures exists k | 0 <= k < i + 1 :: input.sessions[k].id == id && Recorded(input, input.sessions[k], more[id])
    {
      if id == s.id {
        assert Recorded(input, input.sessions[i], more[id]);
      } else {
        var k :| 0 <= k < i && input.sessions[k].id == id && Recorded(input, input.sessions[k], observations[id]);
      }
    }
  }

  // ---------------------------------------------------------------- the planning loop

  /** Price a ready session against the batch so far. */
  method Price(input: Input, s: Session, file: File, chosen: seq<Decision>, total: int)
    returns (d: Decision, cumulative: int, failure: Option<Failure>)
    requires Ready(input, s, file) && file.size <= MAX_INT64
    requires Afforded(input, chosen) && total == BatchBytes(chosen) && 0 <= total <= MAX_INT64
    ensures failure.None? ==> Right(input, s, d) && LeftOutRightly(input, chosen, d) && cumulative <= MAX_INT64
    ensures failure.None? && d.selected ==>
              |chosen| < input.BatchSize() && Afforded(input, chosen + [d]) && cumulative == BatchBytes(chosen + [d])
    ensures failure == Some(EstimateOverflow) <==> PersistentBytes(file.size).None?
    ensures failure.None? ==> forall why | why != ProbeFailed :: !Causes(input, s, file, chosen, why)
    ensures failure.Some? ==> Causes(input, s, file, chosen, failure.value) && failure != Some(ProbeFailed)
  {
    d, cumulative, failure := Decision(s, Some(file), true, []), total, None;
    var projected := PersistentBytes(file.size);
    if projected.None? {
      return d, total, Some(EstimateOverflow);
    }
    var sum := AddBytes(total, projected.value);
    if sum.None? {
      return d, total, Some(BatchOverflow);
    }
    cumulative := sum.value;
    if |chosen| >= input.BatchSize() {
      d := d.(selected := false, reasons := [BatchLimit]);
    } else if input.budget.None? {
      d := d.(selected := false, reasons := [InsufficientBudget]);
    } else {
      var projection := Projection(cumulative, file.size);
      var answer := input.budget.value(projection);
      if answer == Unknown {
        return d, total, Some(BudgetFailed);
      }
      if answer == Exceeded {
        d := d.(selected := false, reasons := [InsufficientBudget]);
      } else {
        BatchGrows(chosen, d);
        AffordOneMore(input, chosen, d);
      }
    }
  }

  /** The cycle fails at session `i`, after these decisions and this batch. */
  ghost predicate FailsAt(input: Input, i: nat, decisions: seq<Decision>, chosen: seq<Decision>, why: Failure) {
    && i < |input.sessions| && PlanFits(input, i, decisions, chosen)
    && Early(input, input.sessions[i]).None?
    && Causes(input, input.sessions[i], input.look(input.sessions[i].path).value, chosen, why)
  }

  /** Decide about a session that passed the early checks. */
  method Decide(input: Input, s: Session, file: File, chosen: seq<Decision>, total: int)
    returns (d: Decision, cumulative: int, failure: Option<Failure>)
    requires Early(input, s).None? && input.look(s.path) == Some(file) && file.size <= MAX_INT64
    requires Afforded(input, chosen) && total == BatchBytes(chosen) && 0 <= total <= MAX_INT64
    ensures failure.None? ==> Right(input, s, d) && LeftOutRightly(input, chosen, d) && cumulative <= MAX_INT64
    ensures failure.None? && d.selected ==>
              |chosen| < input.BatchSize() && Afforded(input, chosen + [d]) && cumulative == BatchBytes(chosen + [d])
    ensures failure == Some(ProbeFailed) <==> input.writer.Some? && input.writer.value(s).None?
    ensures failure.Some? ==> Causes(input, s, file, chosen, failure.value)
    ensures failure.None? ==> forall why :: !Causes(input, s, file, chosen, why)
  {
    if input.writer.Some? {
      var probed := input.writer.value(s);
      if probed.None? {
        return Decision(s, Some(file), false, []), total, Some(ProbeFailed);
      }
    }
    var reasons := Reasons(input, s, file);
    if reasons == [] {
      d, cumulative, failure := Price(input, s, file, chosen, total);
    } else {
      NotByBatch(input, s, file);
      d, cumulative, failure := Decision(s, Some(file), false, reasons), total, None;
    }
  }

  method DecideSession(input: Input, s: Session, chosen: seq<Decision>, total: int)
    returns (d: Decision, cumulative: int, failure: Option<Failure>)
    requires Sizes(input)
    requires Afforded(input, chosen) && total == BatchBytes(chosen) && 0 <= total <= MAX_INT64
    ensures failure.None? ==> Right(input, s, d) && LeftOutRightly(input, chosen, d) && Harmless(input, s, chosen)
    ensures failure.None? && d.selected ==>
              |chosen| < input.BatchSize() && Afforded(input, chosen + [d]) && cumulative == BatchBytes(chosen + [d])
    ensures failure.Some? ==>
              Early(input, s).None? && Causes(input, s, input.look(s.path).value, chosen, failure.value)
  {
    var early := Early(input, s);
    if early.Some? {
      return Decision(s, None, false, [early.value]), total, None;
    }
    d, cumulative, failure := Decide(input, s, input.look(s.path).value, chosen, total);
  }

  method ObserveNext(input: Input, i: nat, observations: Observations) returns (more: Observations)
    requires i < |input.sessions| && Observed(input, i, observations)
    ensures Observed(input, i + 1, more)
  {
    var s := input.sessions[i];
    more := observations;
    if Early(input, s).None? {
      var file := input.look(s.path).value;
      ObserveOneMore(input, i, observations, file);
      more := observations[s.id := Observe(input, s, file)];
    }
  }

  // ---------------------------------------------------------------- planning order

  predicate NotAfter(a: Session, b: Session) {
    a.updatedAt < b.updatedAt || (a.updatedAt == b.updatedAt && a.id <= b.id)
  }

  /** Least recently updated first, ties by id. */
  ghost predicate Ordered(sessions: seq<Session>) {
    forall i, j | 0 <= i < j < |sessions| ::
      && sessions[i].updatedAt <= sessions[j].updatedAt
      && (sessions[i].updatedAt == sessions[j].updatedAt ==> sessions[i].id <= sessions[j].id)
  }

  lemma InsertOrdered(sessions: seq<Session>, k: nat, s: Session)
    requires Ordered(sessions) && k <= |sessions|
    requires (k > 0 ==> NotAfter(sessions[k - 1], s)) && (k < |sessions| ==> NotAfter(s, sessions[k]))
    ensures Ordered(sessions[..k] + [s] + sessions[k..])
  {
    var all := sessions[..k] + [s] + sessions[k..];
    assert forall i | 0 <= i < k :: all[i] == sessions[i] && NotAfter(sessions[i], s);
    forall i | k < i < |all|
      ensures all[i] == sessions[i - 1] && NotAfter(s, all[i])
    {
      assert i - 1 > k ==> NotAfter(sessions[k], sessions[i - 1]);
    }
  }

  lemma InsertSame(sessions: seq<Session>, k: nat, s: Session)
    requires k <= |sessions|
    ensures multiset(sessions[..k] + [s] + sessions[k..]) == multiset(sessions) + multiset{s}
  {
    assert sessions == sessions[..k] + sessions[k..];
  }

  method Sort(sessions: seq<Session>) returns (ordered: seq<Session>)
    ensures Ordered(ordered) && multiset(ordered) == multiset(sessions)
  {
    ordered := [];
    for i := 0 to |sessions|
      invariant Ordered(ordered) && multiset(ordered) == multiset(sessions[..i])
    {
      ordered := Insert(ordered, sessions[i]);
      assert sessions[..i + 1] == sessions[..i] + [sessions[i]];
    }
    assert sessions[..|sessions|] == sessions;
  }

  method Insert(sessions: seq<Session>, s: Session) returns (all: seq<Session>)
    requires Ordered(sessions)
    ensures Ordered(all) && multiset(all) == multiset(sessions) + multiset{s}
  {
    var k := |sessions|;
    while k > 0 && !NotAfter(sessions[k - 1], s)
      invariant 0 <= k <= |sessions| && (k < |sessions| ==> NotAfter(s, sessions[k]))
    {
      k := k - 1;
    }
    InsertOrdered(sessions, k, s);
    InsertSame(sessions, k, s);
    all := sessions[..k] + [s] + sessions[k..];
  }

  // ---------------------------------------------------------------- one cycle

  /** Nobody cancels before session `i`. */
  ghost predicate Undisturbed(cancelled: nat -> bool, i: nat) {
    forall k: nat | k < i :: !cancelled(k)
  }

  /** A failed cycle was cancelled, or it met the first session that makes it fail, before anybody cancelled it. */
  ghost predicate FailedRightly(input: Input, cancelled: nat -> bool, why: Failure) {
    if why == Cancelled then exists i: nat | i < |input.sessions| :: cancelled(i) && Undisturbed(cancelled, i)
    else exists i: nat, decisions, chosen ::
      FailsAt(input, i, decisions, chosen, why) && Undisturbed(cancelled, i + 1)
  }

  lemma FailsRightly(input: Input, i: nat, decisions: seq<Decision>, chosen: seq<Decision>, why: Failure,
                     cancelled: nat -> bool)
    requires FailsAt(input, i, decisions, chosen, why) && Undisturbed(cancelled, i + 1) && why != Cancelled
    ensures FailedRightly(input, cancelled, why)
  {
  }

  /** One cycle: the sessions are put in planning order and decided one by one; `cancelled` is asked before each. */
  method Build(input: Input, cancelled: nat -> bool) returns (r: Result, ordered: seq<Session>)
    requires Sizes(input)
    ensures Ordered(ordered) && multiset(ordered) == multiset(input.sessions)
    ensures r.Plan? ==> PlanFits(input.(sessions := ordered), |ordered|, r.decisions, r.chosen)
    ensures r.Plan? ==> Observed(input.(sessions := ordered), |ordered|, r.observations)
    ensures r.Plan? ==> Undisturbed(cancelled, |ordered|)
    ensures r.Failed? ==> FailedRightly(input.(sessions := ordered), cancelled, r.why)
  {
    ordered := Sort(input.sessions);
    r := BuildInOrder(input.(sessions := ordered), cancelled);
  }

  method BuildInOrder(input: Input, cancelled: nat -> bool) returns (r: Result)
    requires Sizes(input)
    ensures r.Plan? ==> PlanFits(input, |input.sessions|, r.decisions, r.chosen)
    ensures r.Plan? ==> Observed(input, |input.sessions|, r.observations)
    ensures r.Plan? ==> Undisturbed(cancelled, |input.sessions|)
    ensures r.Failed? ==> FailedRightly(input, cancelled, r.why)
  {
    var progress := Progress([], [], map[], 0);
    for i := 0 to |input.sessions|
      invariant Reached(input, i, progress) && Undisturbed(cancelled, i)
    {
      if cancelled(i) {
        return Failed(Cancelled);
      }
      var next, failure := PlanNext(input, i, progress);
      if failure.Some? {
        FailsRightly(input, i, progress.decisions, progress.chosen, failure.value, cancelled);
        return Failed(failure.value);
      }
      progress := next;
    }
    r := Plan(progress.decisions, progress.chosen, progress.observations);
  }

  /** The variables of the planning loop; `total` are the bytes of the batch. */
  datatype Progress =
    Progress(decisions: seq<Decision>, chosen: seq<Decision>, observations: Observations, total: int)

  ghost predicate Reached(input: Input, i: nat, p: Progress)
    requires i <= |input.sessions|
  {
    && PlanFits(input, i, p.decisions, p.chosen) && Observed(input, i, p.observations)
    && 0 <= p.total <= MAX_INT64 && p.total == BatchBytes(p.chosen)
  }

  /** One turn of the planning loop. */
  method PlanNext(input: Input, i: nat, p: Progress) returns (next: Progress, failure: Option<Failure>)
    requires Sizes(input) && i < |input.sessions| && Reached(input, i, p)
    ensures failure.None? ==> Reached(input, i + 1, next)
    ensures failure.Some? ==> FailsAt(input, i, p.decisions, p.chosen, failure.value) && failure.value != Cancelled
  {
    next := p;
    var observations := ObserveNext(input, i, p.observations);
    var d, cumulative, why := DecideSession(input, input.sessions[i], p.chosen, p.total);
    failure := why;
    if failure.None? {
      NextDecision(input, i, p.decisions, p.chosen, d);
      if d.selected {
        NotNegative(input, p.chosen + [d]);
        next := Progress(p.decisions + [d], p.chosen + [d], observations, cumulative);
      } else {
        next := Progress(p.decisions + [d], p.chosen, observations, p.total);
      }
    }
  }

  lemma NotByBatch(input: Input, s: Session, file: File)
    requires Early(input, s).None? && input.look(s.path) == Some(file)
    ensures BatchLimit !in Reasons(input, s, file) && InsufficientBudget !in Reasons(input, s, file)
  {
  }

  lemma NotNegative(input: Input, chosen: seq<Decision>)
    requires Afforded(input, chosen)
    ensures 0 <= BatchBytes(chosen) <= MAX_INT64
  {
    if chosen != [] {
      assert chosen[..|chosen|] == chosen;
    }
  }

  // ---------------------------------------------------------------- cycles in a row

  function Before(outs: seq<Observations>, k: nat): Observations
    requires k <= |outs|
  {
    if k == 0 then map[] else outs[k - 1]
  }

  /**
    Cycle after cycle, in planning order, each starting from the observations of the one before; the first has none.
  */
  ghost predicate Chained(inputs: seq<Input>, outs: seq<Observations>) {
    && |inputs| == |outs|
    && (forall k | 0 <= k < |inputs| :: Observed(inputs[k], |inputs[k].sessions|, outs[k]))
    && (forall k | 0 <= k < |inputs| :: inputs[k].previous == Before(outs, k))
  }

  /** In cycle `k` the rollout of `id` was on disk at `path` and looked like `file`. */
  ghost predicate Saw(inputs: seq<Input>, outs: seq<Observations>, k: nat, id: Id, path: Path, file: File)
    requires |inputs| == |outs| && k < |inputs|
  {
    id in outs[k] && outs[k][id].path == path && outs[k][id].file == file && inputs[k].look(path) == Some(file)
  }

  ghost predicate SawThroughout(inputs: seq<Input>, outs: seq<Observations>, j: nat, k: nat, id: Id, path: Path,
                                file: File)
    requires |inputs| == |outs| && k < |inputs|
  {
    j <= k && forall i | j <= i <= k :: Saw(inputs, outs, i, id, path, file)
  }

  /** One cycle carries an observation's stability time over, or starts it anew. */
  lemma OneCycle(input: Input, out: Observations, id: Id)
    requires Observed(input, |input.sessions|, out) && id in out
    ensures input.look(out[id].path) == Some(out[id].file)
    ensures out[id].stableSince ==
            if id in input.previous && input.previous[id].(stableSince := 0) == out[id].(stableSince := 0)
            then input.previous[id].stableSince else input.now
  {
    var n :| 0 <= n < |input.sessions| && input.sessions[n].id == id && Recorded(input, input.sessions[n], out[id]);
  }

  lemma SawOneMore(inputs: seq<Input>, outs: seq<Observations>, j: nat, k: nat, id: Id, path: Path, file: File)
    requires |inputs| == |outs| && 0 < k < |inputs|
    requires SawThroughout(inputs, outs, j, k - 1, id, path, file) && Saw(inputs, outs, k, id, path, file)
    ensures SawThroughout(inputs, outs, j, k, id, path, file)
  {
  }

  /** Cycle `j` is the first of the unbroken stretch up to cycle `k` in which the rollout looked like that. */
  ghost predicate Since(inputs: seq<Input>, outs: seq<Observations>, j: nat, k: nat, id: Id, path: Path, file: File)
    requires |inputs| == |outs| && k < |inputs|
  {
    SawThroughout(inputs, outs, j, k, id, path, file) && (j == 0 || !Saw(inputs, outs, j - 1, id, path, file))
  }

  /** What an observation of cycle `k` has to do with that of the cycle before. */
  ghost predicate Links(inputs: seq<Input>, outs: seq<Observations>, k: nat, id: Id)
    requires |inputs| == |outs| && k < |inputs|
  {
    id in outs[k] ==>
      && Saw(inputs, outs, k, id, outs[k][id].path, outs[k][id].file)
      && outs[k][id].stableSince ==
           if k > 0 && Saw(inputs, outs, k - 1, id, outs[k][id].path, outs[k][id].file)
           then outs[k - 1][id].stableSince else inputs[k].now
  }

  ghost predicate Linked(inputs: seq<Input>, outs: seq<Observations>, id: Id) {
    |inputs| == |outs| && forall k | 0 <= k < |inputs| :: Links(inputs, outs, k, id)
  }

  lemma ChainedLinks(inputs: seq<Input>, outs: seq<Observations>, k: nat, id: Id)
    requires Chained(inputs, outs) && k < |inputs|
    ensures Links(inputs, outs, k, id)
  {
    assert inputs[k].previous == Before(outs, k);
    if id in outs[k] {
      OneCycle(inputs[k], outs[k], id);
      if k > 0 && id in outs[k - 1] {
        OneCycle(inputs[k - 1], outs[k - 1], id);
      }
    }
  }

  lemma ChainedIsLinked(inputs: seq<Input>, outs: seq<Observations>, id: Id)
    requires Chained(inputs, outs)
    ensures Linked(inputs, outs, id)
  {
    forall k | 0 <= k < |inputs|
      ensures Links(inputs, outs, k, id)
    {
      ChainedLinks(inputs, outs, k, id);
    }
  }

  lemma {:induction false} StableSince(inputs: seq<Input>, outs: seq<Observations>, k: nat, id: Id) returns (j: nat)
    requires Linked(inputs, outs, id) && k < |inputs| && id in outs[k]
    ensures j <= k && outs[k][id].stableSince == inputs[j].now
    ensures Since(inputs, outs, j, k, id, outs[k][id].path, outs[k][id].file)
    decreases k
  {
    var path, file := outs[k][id].path, outs[k][id].file;
    assert Links(inputs, outs, k, id);
    if k > 0 && Saw(inputs, outs, k - 1, id, path, file) {
      j := StableSince(inputs, outs, k - 1, id);
      SawOneMore(inputs, outs, j, k, id, path, file);
    } else {
      j := k;
    }
  }

  /** The stability time of an observation is the time of the first cycle since which every cycle saw the same. */
  lemma StableSinceACycle(inputs: seq<Input>, outs: seq<Observations>, k: nat, id: Id) returns (j: nat)
    requires Chained(inputs, outs) && k < |inputs| && id in outs[k]
    ensures j <= k && outs[k][id].stableSince == inputs[j].now
    ensures Since(inputs, outs, j, k, id, outs[k][id].path, outs[k][id].file)
  {
    ChainedIsLinked(inputs, outs, id);
    j := StableSince(inputs, outs, k, id);
  }

  /** There is only one such cycle. */
  lemma SinceIsUnique(inputs: seq<Input>, outs: seq<Observations>, i: nat, j: nat, k: nat, id: Id, path: Path,
                      file: File)
    requires |inputs| == |outs| && k < |inputs|
    requires Since(inputs, outs, i, k, id, path, file) && Since(inputs, outs, j, k, id, path, file)
    ensures i == j
  {
  }

  /** The stretch of equal looks up to the cycle before `k` spans the stability window. */
  ghost predicate LongEnough(inputs: seq<Input>, outs: seq<Observations>, k: nat, s: Session, file: File)
    requires |inputs| == |outs| && k < |inputs|
  {
    exists j | 0 <= j < k ::
      Since(inputs, outs, j, k - 1, s.id, s.path, file) && inputs[k].now - inputs[j].now >= inputs[k].StableFor()
  }

  /** Nothing but stability is in the way. */
  ghost predicate Open(input: Input, s: Session, file: File) {
    && Early(input, s).None? && input.look(s.path) == Some(file)
    && !Holds(input, s, NotArchived) && !Holds(input, s, DoctorUnhealthy) && !Holds(input, s, PromotionStage)
    && !Holds(input, s, WriterActive)
  }

  /** The last cycle saw the same, and its stability time is far enough back. */
  ghost predicate Settled(inputs: seq<Input>, outs: seq<Observations>, k: nat, s: Session, file: File)
    requires |inputs| == |outs| && k < |inputs|
  {
    && k > 0 && s.id in outs[k - 1] && outs[k - 1][s.id].path == s.path && outs[k - 1][s.id].file == file
    && inputs[k].now - outs[k - 1][s.id].stableSince >= inputs[k].StableFor()
  }

  lemma ReadyBySettled(inputs: seq<Input>, outs: seq<Observations>, k: nat, s: Session, file: File)
    requires |inputs| == |outs| && k < |inputs| && inputs[k].previous == Before(outs, k)
    ensures Ready(inputs[k], s, file) <==>
            && Open(inputs[k], s, file) && Settled(inputs, outs, k, s, file)
            && inputs[k].now - file.modified >= inputs[k].StableFor()
  {
  }

  lemma SettledIsLongEnough(inputs: seq<Input>, outs: seq<Observations>, k: nat, s: Session, file: File)
    requires Linked(inputs, outs, s.id) && k < |inputs|
    ensures Settled(inputs, outs, k, s, file) <==> LongEnough(inputs, outs, k, s, file)
  {
    if Settled(inputs, outs, k, s, file) {
      var j := StableSince(inputs, outs, k - 1, s.id);
    }
    if LongEnough(inputs, outs, k, s, file) {
      var i :| 0 <= i < k && Since(inputs, outs, i, k - 1, s.id, s.path, file) &&
               inputs[k].now - inputs[i].now >= inputs[k].StableFor();
      assert Saw(inputs, outs, k - 1, s.id, s.path, file);
      var j := StableSince(inputs, outs, k - 1, s.id);
      SinceIsUnique(inputs, outs, i, j, k - 1, s.id, s.path, file);
    }
  }

  /**
    A session is ready exactly if nothing else is in its way, the unbroken stretch of cycles up to this one that saw the
    same path, size and modification time spans at least the stability window, and so does the modification time.
  */
  lemma ReadyIff(inputs: seq<Input>, outs: seq<Observations>, k: nat, s: Session, file: File)
    requires Chained(inputs, outs) && k < |inputs|
    ensures Ready(inputs[k], s, file) <==>
            && Open(inputs[k], s, file) && LongEnough(inputs, outs, k, s, file)
            && inputs[k].now - file.modified >= inputs[k].StableFor()
  {
    ChainedIsLinked(inputs, outs, s.id);
    SettledIsLongEnough(inputs, outs, k, s, file);
    ReadyBySettled(inputs, outs, k, s, file);
  }

  /** What readiness, hence selection, rests on. */
  lemma ReadyMeansStable(inputs: seq<Input>, outs: seq<Observations>, k: nat, s: Session, file: File) returns (j: nat)
    requires Chained(inputs, outs) && k < |inputs| && Ready(inputs[k], s, file)
    ensures j < k && inputs[k].now - inputs[j].now >= inputs[k].StableFor()
    ensures SawThroughout(inputs, outs, j, k - 1, s.id, s.path, file) && inputs[k].look(s.path) == Some(file)
    ensures inputs[k].now - file.modified >= inputs[k].StableFor()
  {
    ReadyIff(inputs, outs, k, s, file);
    j :| 0 <= j < k && Since(inputs, outs, j, k - 1, s.id, s.path, file) &&
         inputs[k].now - inputs[j].now >= inputs[k].StableFor();
  }
}
