/**
  The registry as it is written: entry lists are normalised and merged in loops, the file is replaced under its
  lock, and removal and publication retry a compare-and-swap up to eight times.
*/
module ManagedRegistry {
  import opened Common
  import opened Spec = RegistrySpec

  const ATTEMPTS: nat := 8

  method Normalise(safe: Id -> bool, entries: seq<Entry>) returns (r: Option<map<Id, nat>>)
    ensures r == if Acceptable(safe, entries) then Some(ToMap(entries)) else None
  {
    var m: map<Id, nat> := map[];
    for i := 0 to |entries|
      invariant Acceptable(safe, entries[..i]) && m == ToMap(entries[..i])
    {
      ToMapKeys(entries[..i]);
      assert entries[..i + 1][..i] == entries[..i];
      if !safe(entries[i].id) || entries[i].generation == 0 {
        return None;
      }
      if entries[i].id in m {
        var j :| 0 <= j < i && entries[..i][j].id == entries[i].id;
        return None;
      }
      assert forall j | 0 <= j < i :: entries[..i][j].id != entries[i].id;
      m := m[entries[i].id := entries[i].generation];
    }
    assert entries[..|entries|] == entries;
    r := Some(m);
  }

  method MergeEntries(existing: map<Id, nat>, observed: map<Id, nat>, removed: set<Id>)
    returns (r: Option<map<Id, nat>>)
    ensures r == Merge(existing, observed, removed)
  {
    var merged: map<Id, nat>, todo := map[], existing.Keys;
    while todo != {}
      invariant todo <= existing.Keys
      invariant merged == existing - removed - todo
      decreases todo
    {
      var id :| id in todo;
      if id !in removed {
        merged := merged[id := existing[id]];
      }
      todo := todo - {id};
    }
    ghost var kept := existing - removed;
    assert merged == kept;
    todo := observed.Keys;
    while todo != {}
      invariant todo <= observed.Keys
      invariant merged == kept + (observed - todo)
      invariant forall id | id in observed && id !in todo && id in kept :: observed[id] >= kept[id]
      decreases todo
    {
      var id :| id in todo;
      if id in merged && observed[id] < merged[id] {
        assert id in kept && observed[id] < kept[id];
        return None;
      }
      merged, todo := merged[id := observed[id]], todo - {id};
    }
    assert observed - {} == observed;
    r := Some(merged);
  }

  /** Nobody else writes in between. */
  ghost predicate Alone(others: seq<seq<Request>>) {
    forall i | 0 <= i < |others| :: others[i] == []
  }

  class RegistryFile {
    const safe: Id -> bool
    var file: Option<Registry>

    /** One update, as `Update` describes it. */
    method Write(q: Request) returns (r: Result)
      modifies this
      ensures (file, r) == Update(safe, old(file), q)
    {
      var observed := Normalise(safe, q.observed);
      if observed.None? {
        return Failed(Unsafe);
      }
      var refused := CheckRemovals(q.options.removed, observed.value);
      if refused.Some? {
        return Failed(refused.value);
      }
      if q.options.fence && q.options.removed == {} {
        return Failed(EmptyFence);
      }
      if !q.existed && !q.options.bootstrap {
        return Failed(Missing);
      }
      if !q.existed && q.options.removed != {} {
        return Failed(BootstrapRemoval);
      }
      r := Replace(q, observed.value);
    }

    method CheckRemovals(removed: set<Id>, observed: map<Id, nat>) returns (refused: Option<Error>)
      ensures refused == if exists id | id in removed :: !safe(id) then Some(Unsafe)
                         else if exists id | id in removed :: id in observed then Some(Conflict)
                         else None
    {
      var todo, conflict := removed, false;
      while todo != {}
        invariant todo <= removed
        invariant forall id | id in removed && id !in todo :: safe(id)
        invariant conflict <==> exists id | id in removed && id !in todo :: id in observed
        decreases todo
      {
        var id :| id in todo;
        if !safe(id) {
          return Some(Unsafe);
        }
        conflict, todo := conflict || id in observed, todo - {id};
      }
      refused := if conflict then Some(Conflict) else None;
    }

    /** The part of an update that runs under the registry lock. */
    method Replace(q: Request, observed: map<Id, nat>) returns (r: Result)
      requires observed == ToMap(q.observed)
      modifies this
      ensures (file, r) == Locked(old(file), q)
    {
      if file.None? && q.existed {
        return Failed(Missing);
      }
      if file.None? && q.options.expected.Some? {
        return Failed(Changed);
      }
      var missing := file.None?;
      var existing := if missing then Registry(1, map[]) else file.value;
      if q.options.expected.Some? && existing.revision != q.options.expected.value {
        return Failed(Changed);
      }
      var merged := MergeEntries(existing.entries, observed, q.options.removed);
      if merged.None? {
        return Failed(Backwards);
      }
      if !missing && existing.entries == merged.value && !q.options.fence {
        return Done(existing);
      }
      if !missing && existing.revision == MAX_REVISION {
        return Failed(Overflow);
      }
      var published := Registry(if missing then 1 else existing.revision + 1, merged.value);
      file := Some(published);
      r := Done(published);
    }

    /** What other writers do while this one does not hold the lock. */
    method Others(run: seq<Request>)
      modifies this
      ensures file == After(safe, old(file), run)
    {
      var left := run;
      while left != []
        invariant After(safe, file, left) == After(safe, old(file), run)
        decreases |left|
      {
        var r := Write(left[0]);
        left := left[1..];
      }
    }

    /**
      Remove an entry behind a fence.  Success means that there is no registry or that the entry is gone at a new
      revision; giving up means that every attempt lost against another writer's publication.
    */
    method RemoveIfPresent(id: Id, others: seq<seq<Request>>) returns (r: Option<Error>)
      requires Readable(safe, file) && |others| == ATTEMPTS
      modifies this
      ensures Readable(safe, file)
      ensures old(file).Some? ==> file.Some? && file.value.revision >= old(file).value.revision
      ensures r.None? && file.Some? ==> id !in file.value.entries && safe(id)
      ensures r.None? && old(file).Some? ==> file.value.revision > old(file).value.revision
      ensures r == Some(Changed) ==> old(file).Some? ==> file.value.revision >= old(file).value.revision + ATTEMPTS
      ensures r.Some? ==> r.value in {Unsafe, Changed, Overflow}
      ensures r == Some(Unsafe) <==> !safe(id)
      ensures r == Some(Overflow) ==> file.Some? && file.value.revision == MAX_REVISION
      ensures Alone(others) && r.None? && old(file).Some? ==>
                file == Some(Registry(old(file).value.revision + 1, old(file).value.entries - {id}))
      ensures Alone(others) && r.Some? ==> file == old(file)
    {
      if !safe(id) {
        return Some(Unsafe);
      }
      for attempt := 0 to ATTEMPTS
        invariant Readable(safe, file)
        invariant old(file).Some? ==> file.Some? && file.value.revision >= old(file).value.revision + attempt
        invariant Alone(others) ==> file == old(file) && attempt == 0
      {
        if file.None? {
          return None;
        }
        var q := Request(true, [], Options(false, Some(file.value.revision), {id}, true));
        RevisionNeverFalls(safe, file, others[attempt]);
        Others(others[attempt]);
        EveryPublicationCounts(safe, file, q);
        NeverBackwards(file.value.entries, {id});
        var w := Write(q);
        if w.Failed? && w.error == Changed {
          continue;
        }
        return if w.Failed? then Some(w.error) else None;
      }
      r := Some(Changed);
    }

    /**
      Publish a generation.  Success means that there is no registry or that the entry now has exactly this
      generation; a refusal says that the registry already holds a higher one.
    */
    method UpsertIfPresent(id: Id, generation: nat, others: seq<seq<Request>>) returns (r: Option<Error>)
      requires Readable(safe, file) && |others| == ATTEMPTS
      modifies this
      ensures Readable(safe, file)
      ensures old(file).Some? ==> file.Some? && file.value.revision >= old(file).value.revision
      ensures r.None? && file.Some? ==> id in file.value.entries && file.value.entries[id] == generation
      ensures r == Some(Backwards) ==> file.Some? && id in file.value.entries && file.value.entries[id] > generation
      ensures r == Some(Changed) ==> old(file).Some? ==> file.value.revision >= old(file).value.revision + ATTEMPTS
      ensures r.Some? ==> r.value in {Unsafe, Backwards, Changed, Overflow}
      ensures r == Some(Unsafe) <==> !safe(id) || generation == 0
      ensures r == Some(Overflow) ==> file.Some? && file.value.revision == MAX_REVISION
      ensures Alone(others) && r.None? && old(file).Some? ==>
                file.value.entries == old(file).value.entries[id := generation]
      ensures Alone(others) && r.Some? ==> file == old(file)
    {
      if !safe(id) || generation == 0 {
        return Some(Unsafe);
      }
      var observed := [Entry(id, generation)];
      assert observed[..0] == [] && ToMap(observed) == map[id := generation];
      for attempt := 0 to ATTEMPTS
        invariant Readable(safe, file)
        invariant old(file).Some? ==> file.Some? && file.value.revision >= old(file).value.revision + attempt
        invariant Alone(others) ==> file == old(file) && attempt == 0
      {
        if file.None? {
          return None;
        }
        var q := Request(true, observed, Options(false, Some(file.value.revision), {}, false));
        RevisionNeverFalls(safe, file, others[attempt]);
        Others(others[attempt]);
        EveryPublicationCounts(safe, file, q);
        assert file.value.entries - {} == file.value.entries;
        var w := Write(q);
        if w.Failed? && w.error == Changed {
          continue;
        }
        return if w.Failed? then Some(w.error) else None;
      }
      r := Some(Changed);
    }
  }

  lemma NeverBackwards(existing: map<Id, nat>, removed: set<Id>)
    ensures Merge(existing, ToMap([]), removed) == Some(existing - removed)
  {
    assert (existing - removed) + map[] == existing - removed;
  }
}
