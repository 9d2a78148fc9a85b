/**
  Publication of the registry at the final fence of a reload: the daemon folds what it finds on disk, what the
  registry says and what it remembers into one update.
*/
module FinalFence {
  import opened Common
  import opened RegistrySpec
  import opened ManagedRegistry

  /** A session state found on disk. */
  datatype Found = Found(id: Id, generation: nat)

  /** The generation of an id, 0 when it has none. */
  function Get(m: map<Id, nat>, id: Id): nat {
    if id in m then m[id] else 0
  }

  function Newest(states: seq<Found>, id: Id): nat {
    if states == [] then 0
    else
      var n := |states| - 1;
      Max(Newest(states[..n], id), if states[n].id == id then states[n].generation else 0)
  }

  ghost predicate Named(states: seq<Found>, id: Id) {
    exists i | 0 <= i < |states| :: states[i].id == id
  }

  /** Session metadata on disk names the id, readable (a state) or not (an issue; None is an unnamed issue). */
  ghost predicate Listed(states: seq<Found>, issues: seq<Option<Id>>, id: Id) {
    Named(states, id) || Some(id) in issues
  }

  /**
    The generation that the publication should leave for `id`; 0 for none.  Memory counts only for sessions that
    disk metadata or the registry still name.
  */
  ghost function Goal(states: seq<Found>, issues: seq<Option<Id>>, registry: map<Id, nat>, known: map<Id, nat>,
                      removals: set<Id>, id: Id): nat {
    if id in removals then 0
    else
      var stored := Max(Newest(states, id), Get(registry, id));
      if Listed(states, issues, id) || id in registry then Max(stored, Get(known, id)) else stored
  }

  // ---------------------------------------------------------------- the loops

  method ActiveStates(states: seq<Found>, deleted: set<Id>) returns (active: seq<Found>)
    ensures forall id | id !in deleted :: Newest(active, id) == Newest(states, id)
    ensures forall id :: Named(active, id) <==> id !in deleted && Named(states, id)
  {
    active := [];
    for i := 0 to |states|
      invariant forall id | id !in deleted :: Newest(active, id) == Newest(states[..i], id)
      invariant forall id :: Named(active, id) <==> id !in deleted && Named(states[..i], id)
    {
      assert states[..i + 1] == states[..i] + [states[i]];
      NamesGrow(states[..i], states[i]);
      if states[i].id !in deleted {
        ghost var before := active;
        active := active + [states[i]];
        NamesGrow(before, states[i]);
      }
    }
    assert states[..|states|] == states;
  }

  lemma NamesGrow(states: seq<Found>, more: Found)
    ensures forall id :: Named(states + [more], id) <==> Named(states, id) || more.id == id
    ensures forall id :: Newest(states + [more], id) ==
                         Max(Newest(states, id), if more.id == id then more.generation else 0)
  {
    var all := states + [more];
    assert all[..|states|] == states && all[|states|] == more;
    forall id | Named(states, id)
      ensures Named(all, id)
    {
      var j :| 0 <= j < |states| && states[j].id == id;
      assert all[j].id == id;
    }
  }

  method ActiveIssues(issues: seq<Option<Id>>, deleted: set<Id>) returns (active: seq<Option<Id>>)
    ensures forall id :: Some(id) in active <==> Some(id) in issues && id !in deleted
  {
    active := [];
    for i := 0 to |issues|
      invariant forall id :: Some(id) in active <==> Some(id) in issues[..i] && id !in deleted
    {
      if issues[i].None? || issues[i].value !in deleted {
        active := active + [issues[i]];
      }
    }
    assert issues[..|issues|] == issues;
  }

  method RetainedIds(states: seq<Found>, issues: seq<Option<Id>>) returns (ids: set<Id>)
    ensures forall id :: id in ids <==> Listed(states, issues, id)
  {
    ids := {};
    for i := 0 to |states|
      invariant forall id :: id in ids <==> Named(states[..i], id)
    {
      assert states[..i + 1] == states[..i] + [states[i]];
      NamesGrow(states[..i], states[i]);
      ids := ids + {states[i].id};
    }
    assert states[..|states|] == states;
    for i := 0 to |issues|
      invariant forall id :: id in ids <==> Listed(states, issues[..i], id)
    {
      if issues[i].Some? {
        ids := ids + {issues[i].value};
      }
    }
    assert issues[..|issues|] == issues;
  }

  /** Generations from session metadata; an issue alone leaves generation 0. */
  method RetainedGenerations(states: seq<Found>, issues: seq<Option<Id>>) returns (retained: map<Id, nat>)
    ensures forall id :: Get(retained, id) == Newest(states, id)
  {
    retained := map[];
    for i := 0 to |states|
      invariant forall id :: Get(retained, id) == Newest(states[..i], id)
    {
      assert states[..i + 1][..i] == states[..i];
      if states[i].generation > Get(retained, states[i].id) {
        retained := retained[states[i].id := states[i].generation];
      }
    }
    assert states[..|states|] == states;
    for i := 0 to |issues|
      invariant forall id :: Get(retained, id) == Newest(states, id)
    {
      if issues[i].Some? && issues[i].value !in retained {
        retained := retained[issues[i].value := 0];
      }
    }
  }

  /** Raise generations to those of `more`, for the ids in `eligible`. */
  method Raise(retained: map<Id, nat>, more: map<Id, nat>, eligible: set<Id>) returns (raised: map<Id, nat>)
    ensures forall id :: Get(raised, id) ==
                         if id in eligible then Max(Get(retained, id), Get(more, id)) else Get(retained, id)
  {
    raised := retained;
    var todo := more.Keys;
    while todo != {}
      invariant todo <= more.Keys
      invariant forall id :: Get(raised, id) ==
                             if id in eligible && id !in todo then Max(Get(retained, id), Get(more, id))
                             else Get(retained, id)
      decreases todo
    {
      var id :| id in todo;
      if id in eligible && more[id] > Get(raised, id) {
        raised := raised[id := more[id]];
      }
      todo := todo - {id};
    }
  }

  /** The positive generations as registry entries. */
  method ToEntries(retained: map<Id, nat>) returns (entries: seq<Entry>)
    ensures forall id :: Get(ToMap(entries), id) == Get(retained, id)
    ensures forall i | 0 <= i < |entries| :: entries[i].generation > 0
    ensures forall i, j | 0 <= i < j < |entries| :: entries[i].id != entries[j].id
  {
    entries := [];
    var todo := retained.Keys;
    while todo != {}
      invariant todo <= retained.Keys
      invariant forall id :: Get(ToMap(entries), id) == if id in todo then 0 else Get(retained, id)
      invariant forall i | 0 <= i < |entries| :: entries[i].generation > 0 && entries[i].id !in todo
      invariant forall i, j | 0 <= i < j < |entries| :: entries[i].id != entries[j].id
      decreases todo
    {
      var id :| id in todo;
      if retained[id] > 0 {
        ghost var before := entries;
        entries := entries + [Entry(id, retained[id])];
        assert entries[..|before|] == before;
      }
      todo := todo - {id};
    }
  }

  // ---------------------------------------------------------------- the publication

  lemma MergeIsObserved(existing: map<Id, nat>, observed: map<Id, nat>, removed: set<Id>)
    requires forall id | id in existing && id !in removed :: 0 < existing[id] <= Get(observed, id)
    ensures Merge(existing, observed, removed) == Some(observed)
  {
    var kept := existing - removed;
    forall id | id in observed && id in kept
      ensures observed[id] >= kept[id]
    {
      assert Get(observed, id) >= existing[id];
    }
    forall id | id in kept
      ensures id in observed
    {
      assert Get(observed, id) > 0;
    }
    assert kept + observed == observed;
  }

  class Daemon {
    const registry: RegistryFile
    var known: map<Id, nat>

    constructor (registry: RegistryFile)
      ensures this.registry == registry && known == map[]
    {
      this.registry, known := registry, map[];
    }

    /**
      `others` is what other registry writers do between this daemon's load and its write.  The publication fails
      only because they published, because there is no registry, because the revision is used up, or because an
      unsafe id was found.
    */
    method Publish(states: seq<Found>, issues: seq<Option<Id>>, deleted: set<Id>, transactionRemovals: set<Id>,
                   others: seq<Request>)
      returns (r: Option<Error>)
      requires Readable(registry.safe, registry.file)
      modifies this, registry
      ensures Readable(registry.safe, registry.file)
      ensures r.Some? ==> r.value in {Missing, Unsafe, Changed, Overflow}
      ensures r == Some(Missing) <==> old(registry.file).None?
      ensures r == Some(Unsafe) ==>
                || (exists i | 0 <= i < |states| :: !registry.safe(states[i].id))
                || (exists i | 0 <= i < |issues| && issues[i].Some? :: !registry.safe(issues[i].value))
                || (exists id | id in deleted + transactionRemovals :: !registry.safe(id))
      ensures r == Some(Changed) && old(registry.file).Some? ==>
                registry.file.Some? && registry.file.value.revision > old(registry.file).value.revision
      ensures r == Some(Overflow) ==> registry.file.Some? && registry.file.value.revision == MAX_REVISION
      ensures r.Some? ==> known == old(known) && registry.file == After(registry.safe, old(registry.file), others)
      ensures r.None? ==> Settled(old(registry.file), states, issues, old(known), deleted + transactionRemovals)
      ensures r.None? ==> known == old(known) - (deleted + transactionRemovals)
    {
      if registry.file.None? {
        RevisionNeverFalls(registry.safe, registry.file, others);
        registry.Others(others);
        return Some(Missing);
      }
      var loaded := registry.file.value;
      var removals := deleted + transactionRemovals;
      var observed := Observation(states, issues, deleted, loaded.entries, removals);
      RevisionNeverFalls(registry.safe, registry.file, others);
      registry.Others(others);
      var q := Request(true, observed, Options(false, Some(loaded.revision), removals, false));
      PlannedNeverConflicts(registry.safe, Some(loaded), q, states, issues, known);
      EveryPublicationCounts(registry.safe, registry.file, q);
      var w := registry.Write(q);
      if w.Failed? {
        return Some(w.error);
      }
      known := known - removals;
      r := None;
    }

    /** After a success every id has exactly the generation it should have, and every entry is a real one. */
    ghost predicate Settled(before: Option<Registry>, states: seq<Found>, issues: seq<Option<Id>>,
                            remembered: map<Id, nat>, removals: set<Id>)
      reads registry
    {
      && before.Some? && registry.file.Some?
      && forall id ::
           Get(registry.file.value.entries, id) == Goal(states, issues, before.value.entries, remembered, removals, id)
    }

    /** What the daemon will tell the registry. */
    method Observation(states: seq<Found>, issues: seq<Option<Id>>, deleted: set<Id>, loaded: map<Id, nat>,
                       removals: set<Id>)
      returns (entries: seq<Entry>)
      requires deleted <= removals
      ensures Planned(entries, states, issues, loaded, known, removals)
    {
      var activeStates := ActiveStates(states, deleted);
      var activeIssues := ActiveIssues(issues, deleted);
      var retainedIds := RetainedIds(activeStates, activeIssues);
      var retained := RetainedGenerations(activeStates, activeIssues);
      retained := Raise(retained, loaded, loaded.Keys);
      retained := Raise(retained, known, retainedIds + loaded.Keys);
      retained := retained - removals;
      entries := ToEntries(retained);
      forall id
        ensures Get(ToMap(entries), id) == Goal(states, issues, loaded, known, removals, id)
      {
        if id !in removals {
          assert Listed(activeStates, activeIssues, id) <==> Listed(states, issues, id);
        }
      }
    }
  }

  ghost predicate Planned(entries: seq<Entry>, states: seq<Found>, issues: seq<Option<Id>>, loaded: map<Id, nat>,
                          known: map<Id, nat>, removals: set<Id>) {
    && (forall id :: Get(ToMap(entries), id) == Goal(states, issues, loaded, known, removals, id))
    && (forall i | 0 <= i < |entries| :: entries[i].generation > 0)
    && (forall i, j | 0 <= i < j < |entries| :: entries[i].id != entries[j].id)
  }

  /** The planned update can neither go backwards nor observe what it removes, and it leaves exactly the plan. */
  lemma PlannedNeverConflicts(safe: Id -> bool, file: Option<Registry>, q: Request, states: seq<Found>,
                              issues: seq<Option<Id>>, known: map<Id, nat>)
    requires file.Some? && Readable(safe, file) && q.existed && !q.options.fence
    requires Planned(q.observed, states, issues, file.value.entries, known, q.options.removed)
    ensures Merge(file.value.entries, ToMap(q.observed), q.options.removed) == Some(ToMap(q.observed))
    ensures forall id | id in q.options.removed :: id !in ToMap(q.observed)
    ensures Refusal(safe, q).None? || Refusal(safe, q) == Some(Unsafe)
    ensures Refusal(safe, q) == Some(Unsafe) ==>
              || (exists i | 0 <= i < |states| :: !safe(states[i].id))
              || (exists i | 0 <= i < |issues| && issues[i].Some? :: !safe(issues[i].value))
              || (exists id | id in q.options.removed :: !safe(id))
  {
    var observed := ToMap(q.observed);
    ToMapKeys(q.observed);
    MergeIsObserved(file.value.entries, observed, q.options.removed);
    assert forall id | id in observed :: observed[id] > 0;
    forall id | id in q.options.removed
      ensures id !in observed
    {
      assert Get(observed, id) == 0;
    }
    if !Acceptable(safe, q.observed) {
      var i :| 0 <= i < |q.observed| && !safe(q.observed[i].id);
      UnsafeComesFromMetadata(safe, file, q, states, issues, known, q.observed[i].id);
    }
  }

  lemma UnsafeComesFromMetadata(safe: Id -> bool, file: Option<Registry>, q: Request, states: seq<Found>,
                                issues: seq<Option<Id>>, known: map<Id, nat>, id: Id)
    requires file.Some? && Readable(safe, file) && !safe(id)
    requires Planned(q.observed, states, issues, file.value.entries, known, q.options.removed)
    requires exists i | 0 <= i < |q.observed| :: q.observed[i].id == id
    ensures (exists i | 0 <= i < |states| :: !safe(states[i].id)) ||
            (exists i | 0 <= i < |issues| && issues[i].Some? :: !safe(issues[i].value))
  {
    ToMapKeys(q.observed);
    var i :| 0 <= i < |q.observed| && q.observed[i] == Entry(id, ToMap(q.observed)[id]);
    assert Goal(states, issues, file.value.entries, known, q.options.removed, id) > 0;
    assert id !in file.value.entries;
    if !Listed(states, issues, id) {
      NewestIsListed(states, id);
    } else if Some(id) in issues {
      var j :| 0 <= j < |issues| && issues[j] == Some(id);
      assert !safe(issues[j].value);
    }
  }

  lemma {:induction false} NewestIsListed(states: seq<Found>, id: Id)
    requires Newest(states, id) > 0
    ensures Named(states, id)
  {
    var n := |states| - 1;
    if states[n].id != id {
      NewestIsListed(states[..n], id);
      var i :| 0 <= i < n && states[..n][i].id == id;
      assert states[i].id == id;
    }
  }

  /**
    What the exact outcome means: nothing unremoved is dropped or lowered, nothing removed stays, and a session that
    only memory knows is never added.
  */
  lemma GoalKeepsRegistry(states: seq<Found>, issues: seq<Option<Id>>, registry: map<Id, nat>, known: map<Id, nat>,
                          removals: set<Id>, id: Id)
    ensures id !in removals ==> Goal(states, issues, registry, known, removals, id) >= Get(registry, id)
    ensures id in removals ==> Goal(states, issues, registry, known, removals, id) == 0
    ensures id !in registry && !Listed(states, issues, id) ==> Goal(states, issues, registry, known, removals, id) == 0
  {
    if Newest(states, id) > 0 {
      NewestIsListed(states, id);
    }
  }
}
