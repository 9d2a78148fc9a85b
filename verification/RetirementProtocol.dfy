/**
  The canonical retirement protocol: a managed session is handed back to a native file.

  The durable state of one session is a record of what is on disk.  Every action below is
  one durable write (or one observation) of one actor: the initiating command, the daemon's
  cutover, the daemon's recovery, interrupted-migration recovery, the command's compensation,
  the managed writer, compaction, and a process that waits for the answer.  `session-deletions`
  is the lock: `holder` says who has it and how far that actor has come.  A crash may happen
  between any two writes; it only forgets the holder.
*/
module RetirementProtocol {
  import opened Common

  /** Where the session's state directory is: `fs/sessions` or `fs/retired`. */
  datatype Place = Active | Retired

  /** The request file.  `checkpoint` stands for the bound state hash, sequence and checkpoint hash. */
  datatype Control = Control(token: nat, generation: nat, checkpoint: nat, target: nat)

  /** The acknowledgement file: a copy of the request, with or without an error. */
  datatype Answer = Answer(control: Control, rejected: bool)

  datatype Disk = Disk(
    place: Place,
    generation: nat,
    checkpoint: nat,
    request: Option<Control>,
    answer: Option<Answer>,
    original: bool,          // the hidden snapshot is at fs/snapshots/<id>/native.jsonl
    retained: bool,          // the hidden snapshot is inside the state directory
    listed: bool,            // the store has a durable registry
    registry: Option<nat>)   // the session's entry in it
  {
    predicate Pending() { request.Some? }
    predicate Accepted() { request.Some? && answer.Some? && !answer.value.rejected }
    /** The entry that an upsert leaves; without a registry there is nothing to write. */
    function Entry(): Option<nat> { if listed then Some(generation) else None }
    predicate Refused() { request.Some? && answer.Some? && answer.value.rejected }

    /** The exact checkpoint named by the request is still the current one. */
    predicate Bound()
      requires Pending()
    {
      generation == request.value.generation && checkpoint == request.value.checkpoint
    }
  }

  datatype ForwardStage = MoveDirectory | MoveSnapshot | DropEntry | ClearForward | DropForward
  datatype RestoreStage = ReturnSnapshot | ReturnDirectory | Republish | Upsert | ClearRestore | DropRestore
  datatype CompensationStage = RepublishAgain | UpsertAgain | ClearAgain | DropAgain

  datatype Holder =
    | Free
    | Creating(control: Control, migration: bool)
    | Deciding
    | Forward(forward: ForwardStage)
    | Restoring(restore: RestoreStage, wanted: nat)
    | Compensating(compensation: CompensationStage)
  {
    predicate Daemon() { (Creating? && migration) || Deciding? || Forward? || Restoring? }
  }

  datatype Verdict = Succeeded | Rejected | Failed

  /** The waiting initiator reads four things, one after the other. */
  datatype Waiter =
    | NotWaiting
    | ReadAnswer(own: Control)
    | ReadRequest(own: Control)
    | ReadDirectory(own: Control)
    | ReadState(own: Control)
    | Done(own: Control, verdict: Verdict)

  datatype System = System(
    disk: Disk,
    native: Option<nat>,     // digest of the file at the native rollback target
    holder: Holder,
    noticed: bool,           // the daemon saw no request and is about to remove a leftover answer
    waiter: Waiter,
    used: set<nat>,          // tokens drawn so far
    published: map<nat, Control>,  // requests that became durable, by token
    accepted: set<nat>,      // tokens whose positive answer became durable
    rejected: set<nat>)      // tokens whose rejection became durable

  datatype Actor = Cutover | Recovery | Migration

  datatype Action =
    | BeginRequest(control: Control, migration: bool)
    | PublishRequest
    | Accept(who: Actor)
    | Refuse(who: Actor)
    | ResumeForward
    | ResumeRestore
    | Proceed
    | Crash
    | NoticeNoRequest
    | DropStaleAnswer
    | ForgetNotice
    | FenceRegistry
    | ManagedWrite
    | Compact
    | Compensate(own: nat)
    | ChangeNative(now: Option<nat>)
    | StartWaiting(control: Control)
    | Look

  // ---------------------------------------------------------------- one stage of a lock holder

  predicate ForwardEnabled(d: Disk, stage: ForwardStage) {
    match stage
    case MoveDirectory => true
    case MoveSnapshot => d.original != d.retained
    case DropEntry => true
    case ClearForward => d.Accepted()
    case DropForward => true
  }

  function ForwardWrite(d: Disk, stage: ForwardStage): Disk {
    match stage
    case MoveDirectory => d.(place := Retired)
    case MoveSnapshot => if d.original then d.(original := false, retained := true) else d
    case DropEntry => d.(registry := None)
    case ClearForward => d.(request := None)
    case DropForward => d.(answer := None)
  }

  function ForwardNext(stage: ForwardStage): Holder {
    match stage
    case MoveDirectory => Forward(MoveSnapshot)
    case MoveSnapshot => Forward(DropEntry)
    case DropEntry => Forward(ClearForward)
    case ClearForward => Forward(DropForward)
    case DropForward => Free
  }

  predicate RestoreEnabled(d: Disk, stage: RestoreStage, wanted: nat) {
    match stage
    case ReturnSnapshot => d.original != d.retained
    case ReturnDirectory => true
    case Republish => d.generation == wanted - 1 || d.generation == wanted
    case Upsert => d.generation == wanted && (d.registry.Some? ==> d.registry.value <= d.generation)
    case ClearRestore => d.Refused()
    case DropRestore => true
  }

  function RestoreWrite(d: Disk, stage: RestoreStage, wanted: nat): Disk {
    match stage
    case ReturnSnapshot => if d.retained then d.(original := true, retained := false) else d
    case ReturnDirectory => d.(place := Active)
    case Republish =>
      if d.generation == wanted then d
      else d.(generation := d.generation + 1, checkpoint := d.checkpoint + 1)
    case Upsert => d.(registry := d.Entry())
    case ClearRestore => d.(request := None)
    case DropRestore => d.(answer := None)
  }

  function RestoreNext(stage: RestoreStage, wanted: nat): Holder {
    match stage
    case ReturnSnapshot => Restoring(ReturnDirectory, wanted)
    case ReturnDirectory => Restoring(Republish, wanted)
    case Republish => Restoring(Upsert, wanted)
    case Upsert => Restoring(ClearRestore, wanted)
    case ClearRestore => Restoring(DropRestore, wanted)
    case DropRestore => Free
  }

  predicate CompensationEnabled(d: Disk, stage: CompensationStage) {
    stage.UpsertAgain? ==> (d.registry.Some? ==> d.registry.value <= d.generation)
  }

  function CompensationWrite(d: Disk, stage: CompensationStage): Disk {
    match stage
    case RepublishAgain => d.(generation := d.generation + 1, checkpoint := d.checkpoint + 1)
    case UpsertAgain => d.(registry := d.Entry())
    case ClearAgain => d.(request := None)
    case DropAgain => d.(answer := None)
  }

  function CompensationNext(stage: CompensationStage): Holder {
    match stage
    case RepublishAgain => Compensating(UpsertAgain)
    case UpsertAgain => Compensating(ClearAgain)
    case ClearAgain => Compensating(DropAgain)
    case DropAgain => Free
  }

  // ---------------------------------------------------------------- the actions

  /** Recovery refuses to plan when the state is neither at the request's generation nor one past it. */
  predicate Plannable(d: Disk)
    requires d.Pending()
  {
    d.generation == d.request.value.generation ||
    (d.place == Active && d.generation == d.request.value.generation + 1)
  }

  predicate MayDecide(s: System, who: Actor) {
    && s.disk.Pending()
    && s.disk.answer.None?
    && !s.noticed
    && match who
       case Cutover => s.holder == Free && s.disk.place == Active
       case Recovery => s.holder == Free && Plannable(s.disk)
       case Migration => s.holder == Deciding
  }

  predicate Enabled(s: System, a: Action) {
    match a
    case BeginRequest(c, migration) =>
      && s.holder == Free
      && s.disk.place == Active
      && s.disk.request.None?
      && c.token !in s.used
      && c.generation == s.disk.generation
      && c.checkpoint == s.disk.checkpoint
      && (migration ==> !s.noticed)
    case PublishRequest => s.holder.Creating?
    case Accept(who) =>
      MayDecide(s, who) && s.disk.Bound() && s.native == Some(s.disk.request.value.target)
    case Refuse(who) => MayDecide(s, who)
    case ResumeForward =>
      s.holder == Free && !s.noticed && s.disk.Accepted() && s.disk.Bound()
    case ResumeRestore =>
      s.holder == Free && !s.noticed && s.disk.Refused() && Plannable(s.disk)
    case Proceed =>
      (match s.holder
       case Forward(stage) => ForwardEnabled(s.disk, stage)
       case Restoring(stage, wanted) => RestoreEnabled(s.disk, stage, wanted)
       case Compensating(stage) => CompensationEnabled(s.disk, stage)
       case _ => false)
    case Crash => true
    case NoticeNoRequest => !s.holder.Daemon() && s.disk.place == Active && s.disk.request.None?
    case DropStaleAnswer => s.noticed
    case ForgetNotice => true
    case FenceRegistry => s.holder == Free && !s.noticed && s.disk.listed
    case ManagedWrite =>
      (s.holder == Free || s.holder.Compensating?) && s.disk.place == Active && !s.disk.Accepted()
    case Compact => (s.holder == Free || s.holder.Compensating?) && s.disk.place == Active
    case Compensate(own) =>
      // its waiter has said "rejected": its request was refused, or is gone without a positive answer in force
      && s.holder == Free && s.disk.place == Active && s.disk.Pending()
      && own in s.published && (own in s.rejected || s.disk.request.value.token != own)
    case ChangeNative(_) => true
    case StartWaiting(c) => s.waiter == NotWaiting && c.token in s.published && s.published[c.token] == c
    case Look => !s.waiter.NotWaiting? && !s.waiter.Done?
  }

  /** What the waiter learns from its next read. */
  function Observe(d: Disk, w: Waiter): Waiter {
    match w
    case ReadAnswer(c) =>
      if d.place == Active && d.answer.Some? && d.answer.value.control == c then
        Done(c, if d.answer.value.rejected then Rejected else Succeeded)
      else ReadRequest(c)
    case ReadRequest(c) =>
      if d.place == Active && d.Pending() then ReadAnswer(c) else ReadDirectory(c)
    case ReadDirectory(c) =>
      if d.place == Retired then Done(c, Succeeded) else ReadState(c)
    case ReadState(c) =>
      if d.place == Retired then Done(c, Failed)
      else if d.generation > c.generation then Done(c, Rejected)
      else ReadAnswer(c)
    case _ => w
  }

  function Apply(s: System, a: Action): System
    requires Enabled(s, a)
  {
    match a
    case BeginRequest(c, migration) =>
      s.(disk := s.disk.(answer := None), holder := Creating(c, migration), used := s.used + {c.token})
    case PublishRequest =>
      s.(disk := s.disk.(request := Some(s.holder.control)),
         published := s.published[s.holder.control.token := s.holder.control],
         holder := if s.holder.migration then Deciding else Free)
    case Accept(who) =>
      s.(disk := s.disk.(answer := Some(Answer(s.disk.request.value, false))),
         accepted := s.accepted + {s.disk.request.value.token},
         holder := if who == Cutover then Free else Forward(MoveDirectory))
    case Refuse(who) =>
      s.(disk := s.disk.(answer := Some(Answer(s.disk.request.value, true))),
         rejected := s.rejected + {s.disk.request.value.token},
         holder := if who == Recovery then Restoring(ReturnSnapshot, s.disk.request.value.generation + 1) else Free)
    case ResumeForward => s.(holder := Forward(MoveDirectory))
    case ResumeRestore => s.(holder := Restoring(ReturnSnapshot, s.disk.request.value.generation + 1))
    case Proceed =>
      (match s.holder
       case Forward(stage) => s.(disk := ForwardWrite(s.disk, stage), holder := ForwardNext(stage))
       case Restoring(stage, wanted) =>
         s.(disk := RestoreWrite(s.disk, stage, wanted), holder := RestoreNext(stage, wanted))
       case Compensating(stage) =>
         s.(disk := CompensationWrite(s.disk, stage), holder := CompensationNext(stage)))
    case Crash => s.(holder := Free)
    case NoticeNoRequest => s.(noticed := true)
    case DropStaleAnswer =>
      s.(noticed := false, disk := if s.disk.place == Active then s.disk.(answer := None) else s.disk)
    case ForgetNotice => s.(noticed := false)
    case FenceRegistry =>
      if s.disk.place == Active then
        s.(disk := s.disk.(registry := Some(if s.disk.registry.Some?
                                            then Max(s.disk.registry.value, s.disk.generation)
                                            else s.disk.generation)))
      else s
    case ManagedWrite => s.(disk := s.disk.(checkpoint := s.disk.checkpoint + 1))
    case Compact => s.(disk := s.disk.(generation := s.disk.generation + 1, checkpoint := s.disk.checkpoint + 1))
    case Compensate(_) => s.(holder := Compensating(RepublishAgain))
    case ChangeNative(now) => s.(native := now)
    case StartWaiting(c) => s.(waiter := ReadAnswer(c))
    case Look => s.(waiter := Observe(s.disk, s.waiter))
  }

  // ---------------------------------------------------------------- runs

  /** A freshly migrated session: managed, no control files, the snapshot at its hidden path. */
  predicate Init(s: System) {
    && s.disk.place == Active
    && s.disk.request == None
    && s.disk.answer == None
    && s.disk.original && !s.disk.retained
    && (s.disk.registry.Some? ==> s.disk.listed && s.disk.registry.value <= s.disk.generation)
    && s.holder == Free && !s.noticed && s.waiter == NotWaiting
    && s.used == {} && s.published == map[] && s.accepted == {} && s.rejected == {}
  }

  predicate Legal(s: System, run: seq<Action>)
    decreases |run|
  {
    run == [] || (Enabled(s, run[0]) && Legal(Apply(s, run[0]), run[1..]))
  }

  function After(s: System, run: seq<Action>): System
    requires Legal(s, run)
    decreases |run|
  {
    if run == [] then s else After(Apply(s, run[0]), run[1..])
  }
}
