/**
  The worker pool that retires a group of sessions.  The dispatcher starts and receives; started sessions run on
  their own and send their outcome through a channel whose capacity is the number of workers.
*/
module Pool {
  import opened Common

  const MOST_WORKERS: nat := 16

  datatype Outcome<+R> = Outcome(session: nat, result: R)

  /** A start: in which turn, and how many other sessions had been started and not yet received. */
  datatype Start = Start(session: nat, others: nat, turn: nat)

  /** A turn in which the dispatcher waits for one of `active` sessions; `more`: others are still to be started. */
  datatype Wait = Wait(active: nat, more: bool, turn: nat)

  function Sessions<R>(outcomes: seq<Outcome<R>>): seq<nat> {
    seq(|outcomes|, i requires 0 <= i < |outcomes| => outcomes[i].session)
  }

  /** The first `n` sessions, each once. */
  ghost function First(n: nat): multiset<nat> {
    if n == 0 then multiset{} else First(n - 1) + multiset{n - 1}
  }

  lemma {:induction false} FirstOnce(n: nat, x: nat)
    ensures First(n)[x] == if x < n then 1 else 0
  {
    if n > 0 {
      FirstOnce(n - 1, x);
    }
  }

  /** Each of the first `n` sessions is reported exactly once, and no other. */
  ghost predicate ReportedOnce<R>(reported: seq<Outcome<R>>, n: nat) {
    forall x: nat :: multiset(Sessions(reported))[x] == if x < n then 1 else 0
  }

  lemma EachOnce<R>(reported: seq<Outcome<R>>, n: nat)
    requires multiset(Sessions(reported)) == First(n)
    ensures ReportedOnce(reported, n)
  {
    forall x: nat
      ensures multiset(Sessions(reported))[x] == if x < n then 1 else 0
    {
      FirstOnce(n, x);
    }
  }

  /** How many sessions may be at work in this turn; None means that nobody watches for idleness. */
  function Allowed(limit: nat, idle: Option<nat -> bool>, turn: nat): nat {
    if idle.None? || idle.value(turn) then limit else 1
  }

  /** Nobody has cancelled before this turn. */
  ghost predicate Wanted(cancelled: nat -> bool, turn: nat) {
    forall t: nat | t < turn :: !cancelled(t)
  }

  /** Starts are in order, within what is allowed in their turn, and none comes after a cancellation. */
  ghost predicate StartsFit(starts: seq<Start>, limit: nat, cancelled: nat -> bool, idle: Option<nat -> bool>) {
    forall i | 0 <= i < |starts| ::
      && starts[i].session == i && starts[i].others < Allowed(limit, idle, starts[i].turn)
      && Wanted(cancelled, starts[i].turn + 1)
  }

  /** The dispatcher waits only when it may start no more, and asks anew in every turn. */
  ghost predicate WaitsFit(waits: seq<Wait>, limit: nat, idle: Option<nat -> bool>) {
    && (forall i | 0 <= i < |waits| :: waits[i].more ==> waits[i].active >= Allowed(limit, idle, waits[i].turn))
    && (forall i, j | 0 <= i < j < |waits| :: waits[i].turn < waits[j].turn)
  }

  ghost predicate WaitedBefore(waits: seq<Wait>, turn: nat) {
    forall i | 0 <= i < |waits| :: waits[i].turn < turn
  }

  lemma WaitedBeforeNext(waits: seq<Wait>, turn: nat)
    requires WaitedBefore(waits, turn)
    ensures WaitedBefore(waits, turn + 1)
  {
  }

  ghost predicate Cancelled(cancelled: nat -> bool) {
    exists t: nat :: cancelled(t)
  }

  /** Every started session is running, waiting in the channel, or reported, and is so exactly once. */
  ghost predicate Accounted<R>(started: nat, running: multiset<nat>, channel: seq<Outcome<R>>,
                               reported: seq<Outcome<R>>) {
    running + multiset(Sessions(channel)) + multiset(Sessions(reported)) == First(started)
  }

  ghost predicate Truthful<R>(run: nat -> R, outcomes: seq<Outcome<R>>) {
    forall i | 0 <= i < |outcomes| :: outcomes[i].result == run(outcomes[i].session)
  }

  ghost predicate InOrder<R>(run: nat -> R, outcomes: seq<Outcome<R>>) {
    forall i | 0 <= i < |outcomes| :: outcomes[i] == Outcome(i, run(i))
  }

  lemma SessionsAppend<R>(outcomes: seq<Outcome<R>>, one: Outcome<R>)
    ensures Sessions(outcomes + [one]) == Sessions(outcomes) + [one.session]
  {
  }

  lemma SessionsFirst<R>(outcomes: seq<Outcome<R>>)
    requires outcomes != []
    ensures Sessions(outcomes) == [outcomes[0].session] + Sessions(outcomes[1..])
  {
  }

  /** Some of the running sessions finish and send; `must` when the dispatcher is waiting for one. */
  method Finish<R>(run: nat -> R, running: multiset<nat>, channel: seq<Outcome<R>>, capacity: nat, must: bool,
                   ghost started: nat, ghost reported: seq<Outcome<R>>)
    returns (running': multiset<nat>, channel': seq<Outcome<R>>)
    requires |running| + |channel| <= capacity && (must ==> |running| + |channel| > 0)
    requires Accounted(started, running, channel, reported) && Truthful(run, channel)
    ensures Accounted(started, running', channel', reported) && Truthful(run, channel')
    ensures |running'| + |channel'| == |running| + |channel|
    ensures must ==> channel' != []
  {
    running', channel' := running, channel;
    while true
      invariant Accounted(started, running', channel', reported) && Truthful(run, channel')
      invariant |running'| + |channel'| == |running| + |channel|
      decreases |running'|
    {
      var wait := must && channel' == [];
      if !wait {
        if * {
          break;
        }
      }
      if |running'| == 0 {
        break;
      }
      var session :| session in running';
      assert |channel'| < capacity;   // the send does not block
      var sent := Outcome(session, run(session));
      SessionsAppend(channel', sent);
      running', channel' := running' - multiset{session}, channel' + [sent];
    }
  }

  /**
    The group runner.  `cancelled` and `idle` are asked once per turn of the loop; None means that nobody watches
    for idleness.
  */
  method RunGroup<R>(count: nat, workers: int, cancelled: nat -> bool, idle: Option<nat -> bool>, run: nat -> R)
    returns (reported: seq<Outcome<R>>, starts: seq<Start>, waits: seq<Wait>)
    ensures ReportedOnce(reported, |starts|) && Truthful(run, reported)
    ensures |starts| <= count && (|starts| == count || Cancelled(cancelled))
    ensures StartsFit(starts, Min(if workers < 2 then 1 else workers, MOST_WORKERS), cancelled,
                      if workers < 2 then None else idle)
    ensures workers >= 2 ==> WaitsFit(waits, Min(workers, MOST_WORKERS), idle) && |waits| == |reported|
    ensures workers < 2 ==> InOrder(run, reported)
  {
    if workers < 2 {
      reported, starts := RunInOrder(count, cancelled, run);
      waits := [];
    } else {
      reported, starts, waits := RunTogether(count, Min(workers, MOST_WORKERS), cancelled, idle, run);
    }
  }

  /** What the dispatcher keeps: started sessions, outcomes on their way and reported, and what it did in which turn. */
  datatype Books<R> = Books(running: multiset<nat>, channel: seq<Outcome<R>>, reported: seq<Outcome<R>>,
                            starts: seq<Start>, waits: seq<Wait>)
  {
    function Active(): nat {
      |running| + |channel|
    }
  }

  /** The books are right before turn `turn`. */
  ghost predicate Kept<R>(b: Books<R>, run: nat -> R, limit: nat, cancelled: nat -> bool, idle: Option<nat -> bool>,
                          turn: nat) {
    && Accounted(|b.starts|, b.running, b.channel, b.reported) && b.Active() <= limit
    && Truthful(run, b.channel) && Truthful(run, b.reported)
    && StartsFit(b.starts, limit, cancelled, idle)
    && WaitsFit(b.waits, limit, idle) && WaitedBefore(b.waits, turn) && |b.waits| == |b.reported|
  }

  /** All sessions up to `next` are started, or somebody cancelled; up to now nobody has if there are more to start. */
  ghost predicate Going(started: nat, next: nat, count: nat, cancelled: nat -> bool, turn: nat) {
    && started <= next <= count && (started == next || Cancelled(cancelled))
    && (next < count ==> started == next && Wanted(cancelled, turn))
  }

  /** Two workers or more. */
  method RunTogether<R>(count: nat, limit: nat, cancelled: nat -> bool, idle: Option<nat -> bool>, run: nat -> R)
    returns (reported: seq<Outcome<R>>, starts: seq<Start>, waits: seq<Wait>)
    requires limit > 0
    ensures ReportedOnce(reported, |starts|) && Truthful(run, reported)
    ensures |starts| <= count && (|starts| == count || Cancelled(cancelled))
    ensures StartsFit(starts, limit, cancelled, idle) && WaitsFit(waits, limit, idle) && |waits| == |reported|
  {
    var b: Books<R> := Books(multiset{}, [], [], [], []);
    var next: nat, turn: nat := 0, 0;
    while next < count || b.Active() > 0
      invariant Kept(b, run, limit, cancelled, idle, turn) && Going(|b.starts|, next, count, cancelled, turn)
      decreases 2 * (count - next) + b.Active()
    {
      if cancelled(turn) {
        next := count;
      }
      b, next := TakeTurn(b, next, count, run, limit, cancelled, idle, turn);
      turn := turn + 1;
    }
    NothingLeft(|b.starts|, b.running, b.channel, b.reported);
    EachOnce(b.reported, |b.starts|);
    reported, starts, waits := b.reported, b.starts, b.waits;
  }

  /** One turn of the loop, after the question whether anybody cancelled: start one, or wait for one if there is one. */
  method TakeTurn<R>(b: Books<R>, next: nat, count: nat, run: nat -> R, limit: nat, ghost cancelled: nat -> bool,
                     idle: Option<nat -> bool>, turn: nat)
    returns (books: Books<R>, more: nat)
    requires limit > 0 && Kept(b, run, limit, cancelled, idle, turn)
    requires Going(|b.starts|, next, count, cancelled, turn) && (next < count ==> Wanted(cancelled, turn + 1))
    ensures Kept(books, run, limit, cancelled, idle, turn + 1)
    ensures Going(|books.starts|, more, count, cancelled, turn + 1)
    ensures next < count || b.Active() > 0 ==>
              2 * (count - more) + books.Active() < 2 * (count - next) + b.Active()
    ensures next >= more - 1 && (next == count ==> more == count && (b.Active() == 0 ==> books.Active() == 0))
  {
    books := SomeFinish(b, run, limit, cancelled, idle, turn);
    more := next;
    var most := limit;
    if idle.Some? && !idle.value(turn) {
      most := 1;
    }
    if next < count && books.Active() < most {
      books := StartNext(books, run, limit, cancelled, idle, turn);
      more := next + 1;
    } else if books.Active() > 0 {
      books := ReceiveOne(books, run, limit, cancelled, idle, turn, next < count);
    } else {
      WaitedBeforeNext(books.waits, turn);
    }
  }

  /** Meanwhile some sessions finish on their own. */
  method SomeFinish<R>(b: Books<R>, run: nat -> R, limit: nat, ghost cancelled: nat -> bool,
                       ghost idle: Option<nat -> bool>, ghost turn: nat)
    returns (next: Books<R>)
    requires Kept(b, run, limit, cancelled, idle, turn)
    ensures Kept(next, run, limit, cancelled, idle, turn)
    ensures next.Active() == b.Active() && next.starts == b.starts && next.waits == b.waits
  {
    var running, channel := Finish(run, b.running, b.channel, limit, false, |b.starts|, b.reported);
    next := b.(running := running, channel := channel);
  }

  /** Start the next session in turn `turn`. */
  method StartNext<R>(b: Books<R>, ghost run: nat -> R, ghost limit: nat, ghost cancelled: nat -> bool,
                      ghost idle: Option<nat -> bool>, turn: nat)
    returns (next: Books<R>)
    requires Kept(b, run, limit, cancelled, idle, turn)
    requires b.Active() < Allowed(limit, idle, turn) <= limit && Wanted(cancelled, turn + 1)
    ensures Kept(next, run, limit, cancelled, idle, turn + 1)
    ensures next.Active() == b.Active() + 1 && |next.starts| == |b.starts| + 1
  {
    var one := Start(|b.starts|, b.Active(), turn);
    StartOne(b.starts, one, limit, cancelled, idle, b.running, b.channel, b.reported);
    WaitedBeforeNext(b.waits, turn);
    next := b.(starts := b.starts + [one], running := b.running + multiset{one.session});
  }

  /** Wait for an outcome and report it; `more`: other sessions are still to be started. */
  method ReceiveOne<R>(b: Books<R>, run: nat -> R, limit: nat, ghost cancelled: nat -> bool,
                       ghost idle: Option<nat -> bool>, turn: nat, more: bool)
    returns (next: Books<R>)
    requires Kept(b, run, limit, cancelled, idle, turn) && b.Active() > 0
    requires more ==> b.Active() >= Allowed(limit, idle, turn)
    ensures Kept(next, run, limit, cancelled, idle, turn + 1)
    ensures next.Active() == b.Active() - 1 && next.starts == b.starts
  {
    var wait := Wait(b.Active(), more, turn);
    OneMoreWait(b.waits, wait, limit, idle);
    var running, channel := Finish(run, b.running, b.channel, limit, true, |b.starts|, b.reported);
    var rest, reported := Receive(run, channel, |b.starts|, running, b.reported);
    next := Books(running, rest, reported, b.starts, b.waits + [wait]);
  }

  lemma OneMoreWait(waits: seq<Wait>, one: Wait, limit: nat, idle: Option<nat -> bool>)
    requires WaitsFit(waits, limit, idle) && (one.more ==> one.active >= Allowed(limit, idle, one.turn))
    requires WaitedBefore(waits, one.turn)
    ensures WaitsFit(waits + [one], limit, idle) && WaitedBefore(waits + [one], one.turn + 1)
  {
  }

  lemma StartOne<R>(starts: seq<Start>, one: Start, limit: nat, cancelled: nat -> bool, idle: Option<nat -> bool>,
                    running: multiset<nat>, channel: seq<Outcome<R>>, reported: seq<Outcome<R>>)
    requires Accounted(|starts|, running, channel, reported) && StartsFit(starts, limit, cancelled, idle)
    requires one.session == |starts| && one.others < Allowed(limit, idle, one.turn) && Wanted(cancelled, one.turn + 1)
    ensures Accounted(|starts + [one]|, running + multiset{one.session}, channel, reported)
    ensures StartsFit(starts + [one], limit, cancelled, idle)
  {
  }

  lemma NothingLeft<R>(started: nat, running: multiset<nat>, channel: seq<Outcome<R>>, reported: seq<Outcome<R>>)
    requires Accounted(started, running, channel, reported) && |running| == 0 && |channel| == 0
    ensures multiset(Sessions(reported)) == First(started)
  {
    assert running == multiset{} && channel == [];
  }

  /** The dispatcher takes the oldest outcome from the channel and reports it. */
  method Receive<R>(ghost run: nat -> R, channel: seq<Outcome<R>>, ghost started: nat, ghost running: multiset<nat>,
                    reported: seq<Outcome<R>>)
    returns (channel': seq<Outcome<R>>, reported': seq<Outcome<R>>)
    requires channel != [] && Accounted(started, running, channel, reported) && Truthful(run, channel)
    requires Truthful(run, reported)
    ensures Accounted(started, running, channel', reported') && Truthful(run, channel') && Truthful(run, reported')
    ensures |channel'| == |channel| - 1 && |reported'| == |reported| + 1
  {
    SessionsFirst(channel);
    SessionsAppend(reported, channel[0]);
    channel', reported' := channel[1..], reported + [channel[0]];
  }

  function Min(a: int, b: int): (r: int)
    ensures r <= a && r <= b && (r == a || r == b)
  {
    if a < b then a else b
  }

  /** One worker: run and report in order until cancelled. */
  method RunInOrder<R>(count: nat, cancelled: nat -> bool, run: nat -> R)
    returns (reported: seq<Outcome<R>>, starts: seq<Start>)
    ensures Wanted(cancelled, |starts|) && forall i | 0 <= i < |starts| :: starts[i] == Start(i, 0, i)
    ensures InOrder(run, reported) && ReportedOnce(reported, |starts|)
    ensures |starts| <= count && (|starts| == count || Cancelled(cancelled))
  {
    reported, starts := [], [];
    for i := 0 to count
      invariant |starts| == i && Wanted(cancelled, i) && forall j | 0 <= j < i :: starts[j] == Start(j, 0, j)
      invariant InOrder(run, reported) && |reported| == i && multiset(Sessions(reported)) == First(i)
    {
      if cancelled(i) {
        EachOnce(reported, i);
        return;
      }
      SessionsAppend(reported, Outcome(i, run(i)));
      reported, starts := reported + [Outcome(i, run(i))], starts + [Start(i, 0, i)];
    }
    EachOnce(reported, count);
  }
}
