/**
  The object store as it runs: objects are put, synced and read, a fold is committed, orphans are collected and a
  session is unfolded.  `writes` is the number of durable writes a run makes before its process dies.
*/
module Store {
  import opened Common
  import opened Records
  import opened Spec = StoreProtocol

  /**
    What one look at the store finds besides its manifests: whether one cannot be read, and for every managed session
    the manifest it stands on (None when the reference does not hold up).
  */
  datatype Evidence = Evidence(unreadable: bool, managed: seq<Option<Manifest>>)

  ghost predicate Upheld(hash: Bytes -> Digest, objects: map<Digest, Bytes>, m: Option<Manifest>) {
    m.Some? && Restore(hash, objects, m.value).Some?
  }

  ghost predicate Valid(hash: Bytes -> Digest, objects: map<Digest, Bytes>, e: Evidence) {
    !e.unreadable && forall i | 0 <= i < |e.managed| :: Upheld(hash, objects, e.managed[i])
  }

  ghost predicate ManagedUses(e: Evidence, k: Digest) {
    exists i | 0 <= i < |e.managed| :: e.managed[i].Some? && Uses(e.managed[i].value, k)
  }

  /** Managed sessions that could be restored still restore to the same bytes. */
  ghost predicate Protects(hash: Bytes -> Digest, before: map<Digest, Bytes>, after: map<Digest, Bytes>, e: Evidence) {
    forall i | 0 <= i < |e.managed| && Upheld(hash, before, e.managed[i]) ::
      Restore(hash, after, e.managed[i].value) == Restore(hash, before, e.managed[i].value)
  }

  /** The evidence holds up and does not change, and every object has the digest it is named by. */
  ghost predicate Steady(hash: Bytes -> Digest, objects: map<Digest, Bytes>, evidence: nat -> Evidence) {
    Valid(hash, objects, evidence(0)) && WellNamed(hash, objects) && forall t :: evidence(t) == evidence(0)
  }

  lemma ProtectsWithout(hash: Bytes -> Digest, before: map<Digest, Bytes>, after: map<Digest, Bytes>, e: Evidence,
                        d: Digest)
    requires Protects(hash, before, after, e) && !ManagedUses(e, d)
    ensures Protects(hash, before, after - {d}, e)
  {
    forall i | 0 <= i < |e.managed| && Upheld(hash, before, e.managed[i])
      ensures Restore(hash, after - {d}, e.managed[i].value) == Restore(hash, before, e.managed[i].value)
    {
      var m := e.managed[i].value;
      assert forall j | 0 <= j < |m.parts| :: m.parts[j].digest != d by {
        if j: nat :| j < |m.parts| && m.parts[j].digest == d {
          assert Uses(m, d);
        }
      }
      ReadPartsAgree(hash, after, after - {d}, m.parts);
    }
  }

  lemma ProtectsValid(hash: Bytes -> Digest, before: map<Digest, Bytes>, after: map<Digest, Bytes>, e: Evidence)
    requires Protects(hash, before, after, e) && Valid(hash, before, e)
    ensures Valid(hash, after, e)
  {
    forall i | 0 <= i < |e.managed|
      ensures Upheld(hash, after, e.managed[i])
    {
      assert Upheld(hash, before, e.managed[i]);
    }
  }

  /** The files of one store directory. */
  class Files {
    var objects: map<Digest, Bytes>
    var synced: set<Digest>
    var manifests: map<Session, Manifest>

    ghost function Now(): Disk
      reads this
    {
      Disk(objects, synced, manifests)
    }

    /**
      The digests that some manifest or some managed session uses; refused when a manifest cannot be read, or when a
      managed session's reference or objects do not hold up.
    */
    method ReferencedObjects(hash: Bytes -> Digest, evidence: Evidence) returns (r: Option<set<Digest>>)
      ensures r.Some? <==> Valid(hash, objects, evidence)
      ensures r.Some? ==> forall k :: k in r.value <==> Referenced(manifests, k) || ManagedUses(evidence, k)
    {
      if evidence.unreadable {
        return None;
      }
      var referenced: set<Digest>, todo := {}, manifests.Keys;
      while todo != {}
        invariant todo <= manifests.Keys
        invariant forall k :: k in referenced <==> exists s | s in manifests && s !in todo :: Uses(manifests[s], k)
        decreases todo
      {
        var s :| s in todo;
        var parts := PartDigests(manifests[s]);
        referenced, todo := referenced + parts, todo - {s};
      }
      var managed := ManagedObjects(hash, evidence);
      r := if managed.Some? then Some(referenced + managed.value) else None;
    }

    method ManagedObjects(hash: Bytes -> Digest, evidence: Evidence) returns (r: Option<set<Digest>>)
      ensures r.Some? <==> forall i | 0 <= i < |evidence.managed| :: Upheld(hash, objects, evidence.managed[i])
      ensures r.Some? ==> forall k :: k in r.value <==> ManagedUses(evidence, k)
    {
      var used: set<Digest> := {};
      for i := 0 to |evidence.managed|
        invariant forall j | 0 <= j < i :: Upheld(hash, objects, evidence.managed[j])
        invariant forall k :: k in used <==>
                    exists j | 0 <= j < i :: evidence.managed[j].Some? && Uses(evidence.managed[j].value, k)
      {
        if evidence.managed[i].None? {
          return None;
        }
        var back := ReadBack(hash, evidence.managed[i].value);
        if back.None? {
          return None;
        }
        var parts := PartDigests(evidence.managed[i].value);
        used := used + parts;
      }
      r := Some(used);
    }

    method PartDigests(m: Manifest) returns (digests: set<Digest>)
      ensures forall k :: k in digests <==> Uses(m, k)
    {
      digests := {};
      for i := 0 to |m.parts|
        invariant forall k :: k in digests <==> exists j | 0 <= j < i :: m.parts[j].digest == k
      {
        digests := digests + {m.parts[i].digest};
      }
    }

    /**
      Collect the orphans.  `evidence` is asked anew, and the reference set rebuilt, before every removal; an object
      whose bytes do not have its digest stops the collection.
    */
    method Collect(hash: Bytes -> Digest, evidence: nat -> Evidence, writes: nat) returns (done: bool)
      requires Intact(hash, Now())
      modifies `objects, `synced
      ensures Intact(hash, Now()) && SameContents(hash, old(Now()), Now())
      ensures Protects(hash, old(objects), objects, evidence(0))
      ensures forall k | k in objects :: k in old(objects) && objects[k] == old(objects[k])
      ensures forall k | k in old(objects) && k !in objects :: !Referenced(manifests, k) && !ManagedUses(evidence(0), k)
      ensures !old(Valid(hash, objects, evidence(0))) ==> !done && objects == old(objects)
      ensures done ==>
                forall k | k in objects :: Referenced(manifests, k) || exists t: nat :: ManagedUses(evidence(t), k)
      // with evidence that holds up and does not change, sound objects and time enough, it finishes
      ensures Steady(hash, old(objects), evidence) && writes >= |old(objects)| ==> done
      ensures synced == old(synced) - (old(objects).Keys - objects.Keys)
    {
      var referenced := ReferencedObjects(hash, evidence(0));
      if referenced.None? {
        return false;
      }
      var todo, left: nat, looks: nat := objects.Keys, writes, 1;
      while todo != {}
        invariant todo <= objects.Keys
        invariant Steady(hash, old(objects), evidence) && writes >= |old(objects)| ==> left >= |todo|
        invariant referenced == Some(referenced.value) && synced == old(synced) - (old(objects).Keys - objects.Keys)
        invariant Intact(hash, Now()) && SameContents(hash, old(Now()), Now())
        invariant Protects(hash, old(objects), objects, evidence(0))
        invariant forall k | k in objects :: k in old(objects) && objects[k] == old(objects[k])
        invariant forall k | k in old(objects) && k !in objects :: k !in referenced.value
        invariant forall k | k in objects && k !in todo ::
                    Referenced(manifests, k) || exists t: nat :: ManagedUses(evidence(t), k)
        decreases todo
      {
        var d :| d in todo;
        assert |todo - {d}| == |todo| - 1;
        if d in referenced.value {
          todo := todo - {d};
          continue;
        }
        if Steady(hash, old(objects), evidence) {
          ProtectsValid(hash, old(objects), objects, evidence(0));
        }
        var ok;
        ok, left := Consider(hash, d, evidence(looks), left, old(objects), evidence(0));
        if !ok {
          return false;
        }
        looks, todo := looks + 1, todo - {d};
      }
      done := true;
    }

    /** Look once more at an object that nothing referred to at first, and remove it if that is still so. */
    method Consider(hash: Bytes -> Digest, d: Digest, look: Evidence, writes: nat, ghost before: map<Digest, Bytes>,
                    ghost first: Evidence)
      returns (ok: bool, left: nat)
      requires Intact(hash, Now()) && d in objects && Protects(hash, before, objects, first) && !ManagedUses(first, d)
      modifies `objects, `synced
      ensures Intact(hash, Now()) && SameContents(hash, old(Now()), Now()) && Protects(hash, before, objects, first)
      ensures if d in objects then objects == old(objects) && synced == old(synced)
              else objects == old(objects) - {d} && synced == old(synced) - {d} && ok && writes > 0
      ensures d !in objects ==> !Referenced(manifests, d) && !ManagedUses(look, d)
      ensures ok && d in objects ==> Referenced(manifests, d) || ManagedUses(look, d)
      ensures ok <==>
        && hash(old(objects)[d]) == d && old(Valid(hash, objects, look))
        && (Referenced(manifests, d) || ManagedUses(look, d) || writes > 0)
      ensures left == if d in objects then writes else writes - 1
    {
      left := writes;
      if hash(objects[d]) != d {
        return false, left;
      }
      var current := ReferencedObjects(hash, look);
      if current.None? {
        return false, left;
      }
      if d !in current.value {
        if left == 0 {
          return false, left;
        }
        IntactWithout(hash, Now(), {d});
        ProtectsWithout(hash, before, objects, first, d);
        objects, synced, left := objects - {d}, synced - {d}, left - 1;
      }
      ok := true;
    }

    /** Read the parts one after another and check the whole. */
    method Unfold(hash: Bytes -> Digest, session: Session) returns (restored: Option<Bytes>)
      ensures restored == Contents(hash, Now(), session)
    {
      if session !in manifests {
        return None;
      }
      var m := manifests[session];
      restored := ReadBack(hash, m);
    }

    /** The reconstruction loop of unfolding and of verifying a manifest before it is committed. */
    method ReadBack(hash: Bytes -> Digest, m: Manifest) returns (restored: Option<Bytes>)
      ensures restored == Restore(hash, objects, m)
    {
      var bytes: Bytes := [];
      for i := 0 to |m.parts|
        invariant ReadParts(hash, objects, m.parts[..i]) == Some(bytes)
      {
        var part := ReadObject(hash, objects, m.parts[i]);
        PartsStep(hash, objects, m.parts, i);
        if part.None? {
          UnreadablePrefix(hash, objects, m.parts, i + 1);
          return None;
        }
        bytes := bytes + part.value;
      }
      assert m.parts[..|m.parts|] == m.parts;
      restored := if |bytes| == m.size && hash(bytes) == m.digest then Some(bytes) else None;
    }
  }

  lemma PartsStep(hash: Bytes -> Digest, objects: map<Digest, Bytes>, parts: seq<Ref>, i: nat)
    requires i < |parts|
    ensures var front, last := ReadParts(hash, objects, parts[..i]), ReadObject(hash, objects, parts[i]);
            ReadParts(hash, objects,
                parts[..i + 1]) == if front.Some? && last.Some? then Some(front.value + last.value) else None
  {
    assert parts[..i + 1][..i] == parts[..i];
  }

  lemma {:induction false} UnreadablePrefix(hash: Bytes -> Digest, objects: map<Digest, Bytes>, parts: seq<Ref>, i: nat)
    requires i <= |parts| && ReadParts(hash, objects, parts[..i]).None?
    ensures ReadParts(hash, objects, parts).None?
    decreases |parts| - i
  {
    if i == |parts| {
      assert parts[..i] == parts;
    } else {
      PartsStep(hash, objects, parts, i);
      UnreadablePrefix(hash, objects, parts, i + 1);
    }
  }

  /** Objects were only added since `before`, and exactly those are to be synced. */
  ghost predicate Added(before: map<Digest, Bytes>, objects: map<Digest, Bytes>, pending: set<Digest>) {
    && (forall k | k in before :: k in objects && objects[k] == before[k])
    && pending == objects.Keys - before.Keys
  }

  /** Storing one piece changes nothing on disk, or adds exactly that piece, to be synced. */
  lemma PutEither(hash: Bytes -> Digest, objects: map<Digest, Bytes>, view: View, data: Bytes)
    ensures var p := PutObject(hash, objects, view, data, true);
            || (p.objects == objects && p.view.pending == view.pending)
            || (hash(data) !in objects && p.objects == objects[hash(data) := data] &&
                p.view.pending == view.pending + {hash(data)})
  {
  }

  lemma PutDigests(hash: Bytes -> Digest, objects: map<Digest, Bytes>, view: View, data: Bytes)
    requires forall k | k in view.cache :: view.cache[k].ref.digest == k
    ensures var p := PutObject(hash, objects, view, data, true);
            && (forall k | k in p.view.cache :: p.view.cache[k].ref.digest == k)
            && (p.ref.Some? ==> p.ref.value.digest == hash(data))
  {
  }

  lemma PutAdds(hash: Bytes -> Digest, objects: map<Digest, Bytes>, view: View, data: Bytes, before: map<Digest, Bytes>)
    requires Added(before, objects, view.pending)
    ensures var p := PutObject(hash, objects, view, data, true);
            && Added(before, p.objects, p.view.pending) && |p.view.pending| <= |view.pending| + 1
            && (forall k | k in objects :: k in p.objects && p.objects[k] == objects[k])
  {
    PutEither(hash, objects, view, data);
    if hash(data) !in objects {
      OneAdded(before, objects, view.pending, hash(data), data);
    }
  }

  lemma OneMoreName(hash: Bytes -> Digest, refs: seq<Ref>, pieces: seq<Bytes>, i: nat, ref: Ref)
    requires i < |pieces| && NamesPieces(hash, refs, pieces[..i]) && ref.digest == hash(pieces[i])
    ensures NamesPieces(hash, refs + [ref], pieces[..i + 1])
  {
    assert pieces[..i + 1] == pieces[..i] + [pieces[i]];
  }

  lemma OneAdded(before: map<Digest, Bytes>, objects: map<Digest, Bytes>, pending: set<Digest>, d: Digest, data: Bytes)
    requires Added(before, objects, pending) && d !in objects
    ensures Added(before, objects[d := data], pending + {d})
  {
    assert objects[d := data].Keys == objects.Keys + {d};
  }

  ghost predicate NamesPieces(hash: Bytes -> Digest, parts: seq<Ref>, pieces: seq<Bytes>) {
    |parts| == |pieces| && forall i | 0 <= i < |pieces| :: parts[i].digest == hash(pieces[i])
  }

  /** One fold's object store. */
  class ObjectStore {
    const files: Files
    const hash: Bytes -> Digest
    var cache: map<Digest, Cached>
    var pending: set<Digest>

    ghost function Seen(): View
      reads this
    {
      View(cache, pending)
    }

    constructor (files: Files, hash: Bytes -> Digest)
      ensures this.files == files && this.hash == hash && Seen() == NO_VIEW
    {
      this.files, this.hash, cache, pending := files, hash, map[], {};
    }

    method Put(data: Bytes, apply: bool) returns (ref: Option<Ref>, reused: bool)
      modifies this, files`objects
      ensures Stored(files.objects, Seen(), ref, reused) ==
              PutObject(hash, old(files.objects), old(Seen()), data, apply)
    {
      var digest := hash(data);
      if digest in cache && (!apply || cache[digest].persisted) {
        return Some(cache[digest].ref), true;
      }
      var new_ref := Ref(digest, |data|);
      if digest in files.objects {
        if ReadObject(hash, files.objects, new_ref).None? {
          return None, false;
        }
        cache := cache[digest := Cached(new_ref, true)];
        return Some(new_ref), true;
      }
      cache := cache[digest := Cached(new_ref, false)];
      if apply {
        files.objects := files.objects[digest := data];
        cache := cache[digest := Cached(new_ref, true)];
        pending := pending + {digest};
      }
      return Some(new_ref), false;
    }

    /** Sync every pending object; `writes` syncs succeed. */
    method SyncPending(writes: nat) returns (ok: bool)
      modifies this`pending, files`synced
      ensures ok ==> files.synced == old(files.synced + pending) && pending == {}
      ensures !ok ==> old(files.synced) <= files.synced <= old(files.synced + pending) && pending == old(pending)
      ensures ok <==> |old(pending)| <= writes
    {
      var todo, left := pending, writes;
      while todo != {}
        invariant todo <= pending == old(pending)
        invariant files.synced == old(files.synced) + (pending - todo)
        invariant 0 <= left && left + (|pending| - |todo|) == writes
        decreases todo
      {
        var d :| d in todo;
        assert |todo| == |todo - {d}| + 1;
        if left == 0 {
          return false;
        }
        files.synced := files.synced + {d};
        todo, left := todo - {d}, left - 1;
      }
      pending := {};
      ok := true;
    }

    /**
      The committing part of a fold: store the pieces, read the manifest back, sync, write the manifest.  `changed`
      says that the rollout is not the file it was when the fold began to read it.
      Dying anywhere leaves every committed manifest as it was.
    */
    method Commit(session: Session, pieces: seq<Bytes>, changed: bool, overwrite: bool, writes: nat)
      returns (ok: bool)
      requires Seen() == NO_VIEW && Intact(hash, files.Now())
      modifies this, files
      ensures Intact(hash, files.Now())
      ensures !ok ==> SameContents(hash, old(files.Now()), files.Now())
      ensures forall s | s in old(files.manifests) && s != session ::
                Contents(hash, files.Now(), s) == old(Contents(hash, files.Now(), s))
      ensures forall k | k in old(files.objects) :: k in files.objects && files.objects[k] == old(files.objects[k])
      ensures ok ==> var r := Contents(hash, files.Now(), session);
                     r.Some? && |r.value| == |Join(pieces)| && hash(r.value) == hash(Join(pieces))
      ensures ok ==> !changed && (session in old(files.manifests) ==> overwrite)
      // the new manifest names the pieces in order, and every object this fold wrote is synced
      ensures ok ==>
                && session in files.manifests
                && files.manifests == old(files.manifests)[session := files.manifests[session]]
                && NamesPieces(hash, files.manifests[session].parts, pieces)
      ensures ok ==> files.synced == old(files.synced) + (files.objects.Keys - old(files.objects).Keys) && pending == {}
      ensures Injective(hash) && WellNamed(hash, old(files.objects)) && writes > 2 * |pieces| ==>
                (ok <==> !changed && (session in old(files.manifests) ==> overwrite))
    {
      var source := Join(pieces);
      var parts, left := StoreAll(pieces, writes);
      if parts.None? || changed {
        return false;
      }
      if Injective(hash) && WellNamed(hash, old(files.objects)) {
        NamesReadBack(hash, files.objects, parts.value, pieces);
      }
      ok := Publish(session, Manifest(parts.value, |source|, hash(source)), overwrite, left);
    }

    /** Everything is stored: read it back, sync, and write the manifest. */
    method Publish(session: Session, m: Manifest, overwrite: bool, writes: nat) returns (ok: bool)
      requires Intact(hash, files.Now())
      modifies this`pending, files`synced, files`manifests
      ensures Intact(hash, files.Now())
      ensures ok <==>
        && Restore(hash, files.objects, m).Some? && |old(pending)| <= writes && writes > 0
        && (session in old(files.manifests) ==> overwrite)
      ensures files.manifests == if ok then old(files.manifests)[session := m] else old(files.manifests)
      ensures ok ==> files.synced == old(files.synced + pending) && pending == {}
    {
      var back := files.ReadBack(hash, m);
      if back.None? {
        return false;
      }
      var synced := SyncPending(writes);
      if !synced || writes == 0 || (session in files.manifests && !overwrite) {
        return false;
      }
      files.manifests := files.manifests[session := m];
      ok := true;
    }

    /** Store the pieces in order: part `i` names piece `i` by its digest. */
    method StoreAll(pieces: seq<Bytes>, writes: nat) returns (parts: Option<seq<Ref>>, left: nat)
      requires Seen() == NO_VIEW && Intact(hash, files.Now())
      modifies this, files`objects
      ensures Intact(hash, files.Now()) && SameContents(hash, old(files.Now()), files.Now())
      ensures Added(old(files.objects), files.objects, pending)
      ensures parts.Some? ==> NamesPieces(hash, parts.value, pieces)
      ensures left <= writes && (parts.Some? ==> left + |pieces| == writes && |pending| <= |pieces|)
      ensures Injective(hash) && WellNamed(hash, old(files.objects)) ==>
                && (writes >= |pieces| ==> parts.Some?)
                && (parts.Some? ==> Names(hash, files.objects, parts.value, pieces))
    {
      var refs: seq<Ref> := [];
      left := writes;
      ghost var before := files.objects;
      ghost var perfect := Injective(hash) && WellNamed(hash, files.objects);
      for i := 0 to |pieces|
        invariant Intact(hash, files.Now()) && Added(before, files.objects, pending)
        invariant |refs| == i && NamesPieces(hash, refs, pieces[..i])
        invariant forall k | k in cache :: cache[k].ref.digest == k
        invariant left + i == writes && |pending| <= i && files.manifests == old(files.manifests)
        invariant perfect ==> Perfect(refs, pieces[..i])
      {
        if left == 0 {
          IntactGrows(hash, old(files.Now()), files.objects);
          return None, 0;
        }
        var ref := StoreOne(pieces, i, refs, perfect, before);
        if ref.None? {
          IntactGrows(hash, old(files.Now()), files.objects);
          return None, left;
        }
        refs, left := refs + [ref.value], left - 1;
      }
      assert pieces[..|pieces|] == pieces;
      IntactGrows(hash, old(files.Now()), files.objects);
      parts := Some(refs);
    }

    /** Nothing collided so far, and the parts stored so far are there. */
    ghost predicate Perfect(refs: seq<Ref>, pieces: seq<Bytes>)
      reads this, files
    {
      && Injective(hash) && WellNamed(hash, files.objects) && CacheFits(hash, files.objects, Seen())
      && Names(hash, files.objects, refs, pieces)
    }

    method StoreOne(pieces: seq<Bytes>, i: nat, ghost refs: seq<Ref>, ghost perfect: bool,
                    ghost before: map<Digest, Bytes>)
      returns (ref: Option<Ref>)
      requires i < |pieces| && Intact(hash, files.Now()) && forall k | k in cache :: cache[k].ref.digest == k
      requires Added(before, files.objects, pending) && NamesPieces(hash, refs, pieces[..i])
      requires perfect ==> Perfect(refs, pieces[..i])
      modifies this, files`objects
      ensures Intact(hash, files.Now()) && forall k | k in cache :: cache[k].ref.digest == k
      ensures Added(before, files.objects, pending) && |pending| <= old(|pending|) + 1
      ensures ref.Some? ==> NamesPieces(hash, refs + [ref.value], pieces[..i + 1])
      ensures perfect ==> ref.Some? && Perfect(refs + [ref.value], pieces[..i + 1])
    {
      if perfect {
        PutNames(hash, files.objects, Seen(), pieces[i], true);
      }
      PutAdds(hash, files.objects, Seen(), pieces[i], before);
      PutDigests(hash, files.objects, Seen(), pieces[i]);
      var reused;
      ref, reused := Put(pieces[i], true);
      IntactGrows(hash, old(files.Now()), files.objects);
      if ref.Some? {
        OneMoreName(hash, refs, pieces, i, ref.value);
      }
      if perfect {
        NamesGrow(hash, old(files.objects), refs, pieces, i, files.objects, ref.value);
      }
    }
  }
}
