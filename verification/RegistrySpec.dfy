/**
  The durable registry of managed sessions: what one update does to the file, and what any sequence of updates by
  any writers keeps.  Updates are serialised by the registry lock, so a run is a sequence of updates.
*/
module RegistrySpec {
  import opened Common

  type Id = nat

  const MAX_REVISION: nat := 0xFFFF_FFFF_FFFF_FFFF

  datatype Entry = Entry(id: Id, generation: nat)

  datatype Registry = Registry(revision: nat, entries: map<Id, nat>)

  /** `expected` makes the update a compare-and-swap; `fence` publishes even when nothing changes. */
  datatype Options = Options(bootstrap: bool, expected: Option<nat>, removed: set<Id>, fence: bool)

  /** `existed`: whether the file was there when the writer looked, before it took the lock. */
  datatype Request = Request(existed: bool, observed: seq<Entry>, options: Options)

  datatype Error = Unsafe | Conflict | EmptyFence | Missing | BootstrapRemoval | Changed | Backwards | Overflow

  datatype Result = Done(registry: Registry) | Failed(error: Error)

  // ---------------------------------------------------------------- one update

  ghost predicate Acceptable(safe: Id -> bool, entries: seq<Entry>) {
    && (forall i | 0 <= i < |entries| :: safe(entries[i].id) && entries[i].generation > 0)
    && (forall i, j | 0 <= i < j < |entries| :: entries[i].id != entries[j].id)
  }

  function ToMap(entries: seq<Entry>): map<Id, nat> {
    if entries == [] then map[]
    else
      var n := |entries| - 1;
      ToMap(entries[..n])[entries[n].id := entries[n].generation]
  }

  predicate GoesBackwards(kept: map<Id, nat>, observed: map<Id, nat>) {
    exists id | id in observed :: id in kept && observed[id] < kept[id]
  }

  /** The entries after an update: prior entries stay unless removed, observations never lower a generation. */
  function Merge(existing: map<Id, nat>, observed: map<Id, nat>, removed: set<Id>): Option<map<Id, nat>> {
    var kept := existing - removed;
    if GoesBackwards(kept, observed) then None else Some(kept + observed)
  }

  /** What the request itself must satisfy. */
  ghost function Refusal(safe: Id -> bool, q: Request): Option<Error> {
    if !Acceptable(safe, q.observed) then Some(Unsafe)
    else if exists id | id in q.options.removed :: !safe(id) then Some(Unsafe)
    else if exists id | id in q.options.removed :: id in ToMap(q.observed) then Some(Conflict)
    else if q.options.fence && q.options.removed == {} then Some(EmptyFence)
    else if !q.existed && !q.options.bootstrap then Some(Missing)
    else if !q.existed && q.options.removed != {} then Some(BootstrapRemoval)
    else None
  }

  /** The update under the lock: the new file and the writer's answer. */
  ghost function Update(safe: Id -> bool, file: Option<Registry>, q: Request): (Option<Registry>, Result) {
    if Refusal(safe, q).Some? then (file, Failed(Refusal(safe, q).value))
    else Locked(file, q)
  }

  function Locked(file: Option<Registry>, q: Request): (Option<Registry>, Result) {
    if file.None? && q.existed then (file, Failed(Missing))
    else if file.None? && q.options.expected.Some? then (file, Failed(Changed))
    else
      var existing := if file.Some? then file.value else Registry(1, map[]);
      if q.options.expected.Some? && existing.revision != q.options.expected.value then (file, Failed(Changed))
      else
        match Merge(existing.entries, ToMap(q.observed), q.options.removed)
        case None => (file, Failed(Backwards))
        case Some(merged) =>
          if file.Some? && merged == existing.entries && !q.options.fence then (file, Done(existing))
          else if file.Some? && existing.revision == MAX_REVISION then (file, Failed(Overflow))
          else
            var published := Registry(if file.Some? then existing.revision + 1 else 1, merged);
            (Some(published), Done(published))
  }

  ghost predicate Observes(q: Request, id: Id) {
    exists i | 0 <= i < |q.observed| :: q.observed[i].id == id
  }

  lemma {:induction false} ToMapKeys(entries: seq<Entry>)
    ensures forall id :: id in ToMap(entries) <==> exists i | 0 <= i < |entries| :: entries[i].id == id
    ensures forall id | id in ToMap(entries) ::
              exists i | 0 <= i < |entries| :: entries[i] == Entry(id, ToMap(entries)[id])
  {
    if entries != [] {
      var n := |entries| - 1;
      ToMapKeys(entries[..n]);
      forall id | exists i | 0 <= i < |entries| :: entries[i].id == id
        ensures id in ToMap(entries)
      {
        var i :| 0 <= i < |entries| && entries[i].id == id;
        if i < n {
          assert entries[..n][i].id == id;
        }
      }
    }
  }

  // ---------------------------------------------------------------- one publication

  /** A registry file that decodes. */
  ghost predicate Readable(safe: Id -> bool, file: Option<Registry>) {
    file.Some? ==>
      && 0 < file.value.revision <= MAX_REVISION
      && forall id | id in file.value.entries :: safe(id) && file.value.entries[id] > 0
  }

  /** The file stays as it is or is replaced with the next revision, and the writer is told exactly what is there. */
  lemma EveryPublicationCounts(safe: Id -> bool, file: Option<Registry>, q: Request)
    requires Readable(safe, file)
    ensures var (next, r) := Update(safe, file, q);
            && Readable(safe, next)
            && (next == file ||
                (next.Some? && next.value.revision == if file.Some? then file.value.revision + 1 else 1))
            && (r.Failed? ==> next == file)
            && (r.Done? ==> next == Some(r.registry))
            && (r.Done? && q.options.fence && file.Some? ==> next.value.revision == file.value.revision + 1)
            && (r.Done? ==> forall id | id in q.options.removed :: id !in next.value.entries)
  {
    var (next, r) := Update(safe, file, q);
    ToMapKeys(q.observed);
    if r.Done? {
      forall id | id in q.options.removed
        ensures id !in next.value.entries
      {
        assert id !in ToMap(q.observed);
      }
    }
  }

  // ---------------------------------------------------------------- when an update succeeds, and what it leaves

  /** Nothing is wrong with the request itself. */
  ghost predicate Sensible(safe: Id -> bool, q: Request) {
    && Acceptable(safe, q.observed)
    && (forall id | id in q.options.removed :: safe(id) && !Observes(q, id))
    && (q.options.fence ==> q.options.removed != {})
    && (q.existed || (q.options.bootstrap && q.options.removed == {}))
  }

  /** The file is still the one the writer saw. */
  ghost predicate Current(file: Option<Registry>, q: Request) {
    if file.None? then !q.existed && q.options.expected.None?
    else q.options.expected.None? || q.options.expected.value == file.value.revision
  }

  /** Some observation is behind the entry that is there. */
  ghost predicate Lowers(file: Option<Registry>, q: Request) {
    file.Some? && exists i | 0 <= i < |q.observed| ::
      && q.observed[i].id in file.value.entries && q.observed[i].id !in q.options.removed
      && q.observed[i].generation < file.value.entries[q.observed[i].id]
  }

  /** The update has something to write. */
  ghost predicate Writes(file: Option<Registry>, q: Request) {
    || file.None? || q.options.fence
    || (exists id | id in q.options.removed :: id in file.value.entries)
    || (exists i | 0 <= i < |q.observed| ::
          q.observed[i].id !in file.value.entries ||
          file.value.entries[q.observed[i].id] != q.observed[i].generation)
  }

  /** There is a revision left, if one is needed. */
  ghost predicate HasRoom(file: Option<Registry>, q: Request) {
    file.Some? && Writes(file, q) ==> file.value.revision < MAX_REVISION
  }

  /** The entries of the new file: the observed ones as observed, of the others those that are not removed. */
  ghost predicate Leaves(file: Option<Registry>, q: Request, entries: map<Id, nat>) {
    && (forall i | 0 <= i < |q.observed| ::
          q.observed[i].id in entries && entries[q.observed[i].id] == q.observed[i].generation)
    && (forall id | !Observes(q, id) ::
          if file.Some? && id in file.value.entries && id !in q.options.removed
          then id in entries && entries[id] == file.value.entries[id]
          else id !in entries)
  }

  /** What an error says. */
  ghost predicate Means(safe: Id -> bool, file: Option<Registry>, q: Request, e: Error) {
    match e
    case Unsafe => !Acceptable(safe, q.observed) || exists id | id in q.options.removed :: !safe(id)
    case Conflict => exists id | id in q.options.removed :: Observes(q, id)
    case EmptyFence => q.options.fence && q.options.removed == {}
    case Missing => if q.existed then file.None? else !q.options.bootstrap
    case BootstrapRemoval => !q.existed && q.options.removed != {}
    case Changed => q.options.expected.Some? && (file.None? || file.value.revision != q.options.expected.value)
    case Backwards => Lowers(file, q)
    case Overflow => file.Some? && file.value.revision == MAX_REVISION && Writes(file, q)
  }

  lemma {:induction false} ToMapGives(entries: seq<Entry>, i: nat)
    requires i < |entries| && forall a, b | 0 <= a < b < |entries| :: entries[a].id != entries[b].id
    ensures entries[i].id in ToMap(entries) && ToMap(entries)[entries[i].id] == entries[i].generation
  {
    var n := |entries| - 1;
    if i < n {
      ToMapGives(entries[..n], i);
      assert entries[..n][i] == entries[i];
    }
  }

  /** The map of distinct entries, read entry by entry. */
  lemma ObservedMap(safe: Id -> bool, q: Request)
    requires Acceptable(safe, q.observed)
    ensures forall i | 0 <= i < |q.observed| ::
              q.observed[i].id in ToMap(q.observed) && ToMap(q.observed)[q.observed[i].id] == q.observed[i].generation
    ensures forall id :: id in ToMap(q.observed) <==> Observes(q, id)
  {
    ToMapKeys(q.observed);
    forall i | 0 <= i < |q.observed|
      ensures q.observed[i].id in ToMap(q.observed) && ToMap(q.observed)[q.observed[i].id] == q.observed[i].generation
    {
      ToMapGives(q.observed, i);
    }
  }

  lemma RefusalIff(safe: Id -> bool, q: Request)
    ensures Refusal(safe, q).None? <==> Sensible(safe, q)
    ensures Refusal(safe, q).Some? ==> forall file :: Means(safe, file, q, Refusal(safe, q).value)
  {
    ToMapKeys(q.observed);
  }

  lemma MergeIff(safe: Id -> bool, existing: Registry, q: Request)
    requires Sensible(safe, q)
    ensures Merge(existing.entries, ToMap(q.observed), q.options.removed).None? <==> Lowers(Some(existing), q)
    ensures Merge(existing.entries, ToMap(q.observed), q.options.removed).Some? ==>
              Leaves(Some(existing), q, Merge(existing.entries, ToMap(q.observed), q.options.removed).value)
  {
    ObservedMap(safe, q);
    var kept, observed := existing.entries - q.options.removed, ToMap(q.observed);
    if GoesBackwards(kept, observed) {
      var id :| id in observed && id in kept && observed[id] < kept[id];
      var i :| 0 <= i < |q.observed| && q.observed[i].id == id;
    }
  }

  lemma WritesIff(safe: Id -> bool, existing: Registry, q: Request, entries: map<Id, nat>)
    requires Sensible(safe, q) && Leaves(Some(existing), q, entries)
    ensures entries != existing.entries || q.options.fence <==> Writes(Some(existing), q)
  {
    if !Writes(Some(existing), q) {
      forall id
        ensures id in entries <==> id in existing.entries
        ensures id in entries ==> entries[id] == existing.entries[id]
      {
        if Observes(q, id) {
          var i :| 0 <= i < |q.observed| && q.observed[i].id == id;
        }
      }
      assert entries == existing.entries;
    }
  }

  lemma LeavesNothing(q: Request, entries: map<Id, nat>)
    requires Leaves(Some(Registry(1, map[])), q, entries)
    ensures Leaves(None, q, entries)
  {
  }

  lemma LockedIff(safe: Id -> bool, file: Option<Registry>, q: Request)
    requires Readable(safe, file) && Sensible(safe, q)
    ensures var (next, r) := Locked(file, q);
            && (r.Done? <==> Current(file, q) && !Lowers(file, q) && HasRoom(file, q))
            && (r.Done? ==>
                  && next == Some(r.registry) && Leaves(file, q, r.registry.entries)
                  && r.registry.revision == if file.None? then 1
                                            else if Writes(file, q) then file.value.revision + 1
                                            else file.value.revision)
            && (r.Failed? ==> next == file && Means(safe, file, q, r.error))
  {
    var existing := if file.Some? then file.value else Registry(1, map[]);
    MergeIff(safe, existing, q);
    var merged := Merge(existing.entries, ToMap(q.observed), q.options.removed);
    if merged.Some? {
      WritesIff(safe, existing, q, merged.value);
      if file.None? {
        LeavesNothing(q, merged.value);
      }
    }
  }

  /**
    An update succeeds exactly when the request is well formed, the file is still the one the writer saw, no observation
    is behind its entry, and there is a revision left if something has to be written.  It leaves exactly the entries it
    should, at the next revision if something was written and else at the same; an error says what is wrong.
  */
  lemma UpdateIff(safe: Id -> bool, file: Option<Registry>, q: Request)
    requires Readable(safe, file)
    ensures var (next, r) := Update(safe, file, q);
            && (r.Done? <==> Sensible(safe, q) && Current(file, q) && !Lowers(file, q) && HasRoom(file, q))
            && (r.Done? ==>
                  && next == Some(r.registry) && Leaves(file, q, r.registry.entries)
                  && r.registry.revision == if file.None? then 1
                                            else if Writes(file, q) then file.value.revision + 1
                                            else file.value.revision)
            && (r.Failed? ==> next == file && Means(safe, file, q, r.error))
  {
    RefusalIff(safe, q);
    if Sensible(safe, q) {
      LockedIff(safe, file, q);
    }
  }

  /** An entry that the request does not remove stays, at the same generation or a higher one. */
  lemma EntryStays(safe: Id -> bool, file: Option<Registry>, q: Request, id: Id)
    requires file.Some? && id in file.value.entries && id !in q.options.removed
    ensures var next := Update(safe, file, q).0;
            next.Some? && id in next.value.entries && next.value.entries[id] >= file.value.entries[id]
  {
    var kept := file.value.entries - q.options.removed;
    assert id in kept && kept[id] == file.value.entries[id];
  }

  // ---------------------------------------------------------------- any sequence of updates

  ghost function After(safe: Id -> bool, file: Option<Registry>, run: seq<Request>): Option<Registry>
    decreases |run|
  {
    if run == [] then file else After(safe, Update(safe, file, run[0]).0, run[1..])
  }

  lemma {:induction false} RevisionNeverFalls(safe: Id -> bool, file: Option<Registry>, run: seq<Request>)
    requires Readable(safe, file)
    ensures Readable(safe, After(safe, file, run))
    ensures file.Some? ==>
              && After(safe, file, run).Some?
              && file.value.revision <= After(safe, file, run).value.revision <= file.value.revision + |run|
    ensures file.Some? && After(safe, file, run).value.revision == file.value.revision ==>
              After(safe, file, run) == file
    decreases |run|
  {
    if run != [] {
      EveryPublicationCounts(safe, file, run[0]);
      RevisionNeverFalls(safe, Update(safe, file, run[0]).0, run[1..]);
    }
  }

  /** While nobody removes an entry, it stays and its generation never falls. */
  lemma {:induction false} GenerationNeverFalls(safe: Id -> bool, file: Option<Registry>, run: seq<Request>, id: Id)
    requires file.Some? && id in file.value.entries
    requires forall i | 0 <= i < |run| :: id !in run[i].options.removed
    ensures var end := After(safe, file, run);
            end.Some? && id in end.value.entries && end.value.entries[id] >= file.value.entries[id]
    decreases |run|
  {
    if run != [] {
      EntryStays(safe, file, run[0], id);
      assert forall i | 0 <= i < |run| - 1 :: run[1..][i] == run[i + 1];
      GenerationNeverFalls(safe, Update(safe, file, run[0]).0, run[1..], id);
    }
  }

  /** A compare-and-swap prepared before revision `revision`. */
  ghost predicate StaleSwap(q: Request, revision: nat) {
    q.options.expected.Some? && q.options.expected.value < revision
  }

  lemma NotBroughtBack(safe: Id -> bool, file: Option<Registry>, q: Request, id: Id)
    requires Readable(safe, file) && file.Some? && id !in file.value.entries
    requires Observes(q, id) ==> StaleSwap(q, file.value.revision)
    ensures id !in Update(safe, file, q).0.value.entries
  {
    ToMapKeys(q.observed);
  }

  /**
    Once an entry is gone at some revision, whatever the writers do, none that loaded an earlier revision can bring
    it back: those that observe it and swap against an earlier revision all fail.
  */
  lemma {:induction false} FencedOut(safe: Id -> bool, file: Option<Registry>, run: seq<Request>, id: Id)
    requires Readable(safe, file) && file.Some? && id !in file.value.entries
    requires forall i | 0 <= i < |run| :: Observes(run[i], id) ==> StaleSwap(run[i], file.value.revision)
    ensures After(safe, file, run).Some? && id !in After(safe, file, run).value.entries
    decreases |run|
  {
    if run != [] {
      NotBroughtBack(safe, file, run[0], id);
      EveryPublicationCounts(safe, file, run[0]);
      var next := Update(safe, file, run[0]).0;
      forall i | 0 <= i < |run| - 1 && Observes(run[1..][i], id)
        ensures StaleSwap(run[1..][i], next.value.revision)
      {
        assert run[1..][i] == run[i + 1];
      }
      FencedOut(safe, next, run[1..], id);
    }
  }

  // ---------------------------------------------------------------- the fence holds only against compare-and-swap

  /** Otherwise in order: nothing but the revision check could refuse it. */
  ghost predicate WellFormed(safe: Id -> bool, file: Option<Registry>, q: Request)
    requires file.Some?
  {
    && Refusal(safe, q).None? && file.value.revision < MAX_REVISION
    && !GoesBackwards(file.value.entries - q.options.removed, ToMap(q.observed))
  }

  /**
    A well-formed request prepared before the fence brings the removed entry back exactly when it does not swap.
    The bootstrap path writes this way.
  */
  lemma StaleComesBackIff(safe: Id -> bool, file: Option<Registry>, q: Request, id: Id)
    requires Readable(safe, file) && file.Some? && id !in file.value.entries
    requires Observes(q, id) && WellFormed(safe, file, q)
    requires q.options.expected.Some? ==> q.options.expected.value < file.value.revision
    ensures id in Update(safe, file, q).0.value.entries <==> q.options.expected.None?
  {
    ToMapKeys(q.observed);
  }

  /**
    A bootstrapping writer found no file; meanwhile another one published entry 7 and a retirement removed it behind
    a fence.  The bootstrap write then succeeds and entry 7 is back.
  */
  lemma BootstrapUndoesFence(safe: Id -> bool)
    requires safe(7)
    ensures var bootstrap := Request(false, [Entry(7, 1)], Options(true, None, {}, false));
            var retire := Request(true, [], Options(false, Some(1), {7}, true));
            && After(safe, None, [bootstrap, retire]) == Some(Registry(2, map[]))
            && After(safe, None, [bootstrap, retire, bootstrap]) == Some(Registry(3, map[7 := 1]))
  {
    var bootstrap := Request(false, [Entry(7, 1)], Options(true, None, {}, false));
    var retire := Request(true, [], Options(false, Some(1), {7}, true));
    var one := [Entry(7, 1)];
    assert one[..0] == [] && ToMap(one) == map[7 := 1];
    var first, gone := Some(Registry(1, map[7 := 1])), Some(Registry(2, map[]));
    assert map[] - {} + map[7 := 1] == map[7 := 1];
    assert Update(safe, None, bootstrap).0 == first;
    assert map[7 := 1] - {7} + map[] == map[];
    assert Update(safe, first, retire).0 == gone;
    assert Update(safe, gone, bootstrap).0 == Some(Registry(3, map[7 := 1]));
    assert [bootstrap, retire][1..] == [retire] && [retire][1..] == [];
    assert [bootstrap, retire, bootstrap][1..] == [retire, bootstrap];
    assert [retire, bootstrap][1..] == [bootstrap] && [bootstrap][1..] == [];
    assert After(safe, gone, [bootstrap]) == Some(Registry(3, map[7 := 1]));
    assert After(safe, first, [retire]) == gone;
  }
}
