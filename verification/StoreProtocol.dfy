/**
  The content-addressed object store shared by folds and garbage collection.  Both hold the "objects" lock, both
  may die between any two durable writes, and a power loss takes any objects that were never synced with it.
*/
module StoreProtocol {
  import opened Common
  import opened Records

  type Bytes = seq<Byte>

  type Digest = nat

  type Session = nat

  datatype Ref = Ref(digest: Digest, size: nat)

  datatype Manifest = Manifest(parts: seq<Ref>, size: nat, digest: Digest)

  /** `synced` names the objects that a power loss cannot take. */
  datatype Disk = Disk(objects: map<Digest, Bytes>, synced: set<Digest>, manifests: map<Session, Manifest>)

  // ---------------------------------------------------------------- reading

  /** Objects are checked for size and digest when they are read. */
  function ReadObject(hash: Bytes -> Digest, objects: map<Digest, Bytes>, ref: Ref): Option<Bytes> {
    if ref.digest in objects && |objects[ref.digest]| == ref.size && hash(objects[ref.digest]) == ref.digest
    then Some(objects[ref.digest]) else None
  }

  function ReadParts(hash: Bytes -> Digest, objects: map<Digest, Bytes>, parts: seq<Ref>): Option<Bytes> {
    if parts == [] then Some([])
    else
      var n := |parts| - 1;
      var front, last := ReadParts(hash, objects, parts[..n]), ReadObject(hash, objects, parts[n]);
      if front.Some? && last.Some? then Some(front.value + last.value) else None
  }

  /** What a manifest stands for: every part is readable and together they have the recorded size and digest. */
  function Restore(hash: Bytes -> Digest, objects: map<Digest, Bytes>, m: Manifest): Option<Bytes> {
    var bytes := ReadParts(hash, objects, m.parts);
    if bytes.Some? && |bytes.value| == m.size && hash(bytes.value) == m.digest then bytes else None
  }

  /** Every committed manifest can be restored. */
  ghost predicate Intact(hash: Bytes -> Digest, d: Disk) {
    forall s | s in d.manifests :: Restore(hash, d.objects, d.manifests[s]).Some?
  }

  predicate Uses(m: Manifest, digest: Digest) {
    exists i | 0 <= i < |m.parts| :: m.parts[i].digest == digest
  }

  /** Garbage collection's reference set. */
  predicate Referenced(manifests: map<Session, Manifest>, digest: Digest) {
    exists s | s in manifests :: Uses(manifests[s], digest)
  }

  lemma {:induction false} ReadPartsAgree(hash: Bytes -> Digest, a: map<Digest, Bytes>, b: map<Digest, Bytes>,
                                          parts: seq<Ref>)
    requires ReadParts(hash, a, parts).Some?
    requires forall i | 0 <= i < |parts| && parts[i].digest in a ::
               parts[i].digest in b && a[parts[i].digest] == b[parts[i].digest]
    ensures ReadParts(hash, b, parts) == ReadParts(hash, a, parts)
  {
    if parts != [] {
      var n := |parts| - 1;
      assert forall i | 0 <= i < n :: parts[..n][i] == parts[i];
      ReadPartsAgree(hash, a, b, parts[..n]);
    }
  }

  lemma {:induction false} ReadPartsPresent(hash: Bytes -> Digest, objects: map<Digest, Bytes>, parts: seq<Ref>, i: nat)
    requires i < |parts| && ReadParts(hash, objects, parts).Some?
    ensures parts[i].digest in objects
  {
    var n := |parts| - 1;
    if i < n {
      ReadPartsPresent(hash, objects, parts[..n], i);
    }
  }

  // ---------------------------------------------------------------- one fold's view of the store

  datatype Cached = Cached(ref: Ref, persisted: bool)

  datatype View = View(cache: map<Digest, Cached>, pending: set<Digest>)

  const NO_VIEW := View(map[], {})

  datatype Stored = Stored(objects: map<Digest, Bytes>, view: View, ref: Option<Ref>, reused: bool)

  /** Storing one object; `apply` is false while a record is only being priced. */
  function PutObject(hash: Bytes -> Digest, objects: map<Digest, Bytes>, view: View, data: Bytes, apply: bool): Stored {
    var digest := hash(data);
    var ref := Ref(digest, |data|);
    if digest in view.cache && (!apply || view.cache[digest].persisted) then
      Stored(objects, view, Some(view.cache[digest].ref), true)
    else if digest in objects then
      if ReadObject(hash, objects, ref).Some?
      then Stored(objects, view.(cache := view.cache[digest := Cached(ref, true)]), Some(ref), true)
      else Stored(objects, view, None, false)
    else if !apply then
      Stored(objects, view.(cache := view.cache[digest := Cached(ref, false)]), Some(ref), false)
    else
      Stored(objects[digest := data], View(view.cache[digest := Cached(ref, true)], view.pending + {digest}),
          Some(ref), false)
  }

  // ---------------------------------------------------------------- storing without collisions

  ghost predicate Injective(hash: Bytes -> Digest) {
    forall a, b | hash(a) == hash(b) :: a == b
  }

  /** Every object has the digest it is named by. */
  ghost predicate WellNamed(hash: Bytes -> Digest, objects: map<Digest, Bytes>) {
    forall k | k in objects :: hash(objects[k]) == k
  }

  /** The cache tells the truth: of every piece how it is named, and of a persisted one that it is there. */
  ghost predicate CacheFits(hash: Bytes -> Digest, objects: map<Digest, Bytes>, view: View) {
    && (forall data: Bytes | hash(data) in view.cache :: view.cache[hash(data)].ref == Ref(hash(data), |data|))
    && (forall k | k in view.cache && view.cache[k].persisted :: k in objects)
  }

  /** Part `i` names piece `i`, which is there. */
  ghost predicate Names(hash: Bytes -> Digest, objects: map<Digest, Bytes>, parts: seq<Ref>, pieces: seq<Bytes>) {
    && |parts| == |pieces|
    && forall i | 0 <= i < |pieces| ::
         && parts[i] == Ref(hash(pieces[i]), |pieces[i]|) && hash(pieces[i]) in objects
         && objects[hash(pieces[i])] == pieces[i]
  }

  /**
    Without collisions a piece is named by its digest and size.  Storing it leaves it there, and to be synced if it was
    not there before; pricing it changes nothing on disk and does not spoil the cache for storing it later.
  */
  lemma PutNames(hash: Bytes -> Digest, objects: map<Digest, Bytes>, view: View, data: Bytes, apply: bool)
    requires Injective(hash) && WellNamed(hash, objects) && CacheFits(hash, objects, view)
    ensures var p := PutObject(hash, objects, view, data, apply);
            && p.ref == Some(Ref(hash(data), |data|))
            && WellNamed(hash, p.objects) && CacheFits(hash, p.objects, p.view)
            && p.objects == (if apply then objects[hash(data) := data] else objects)
            && p.view.pending == (if apply && hash(data) !in objects then view.pending + {hash(data)} else view.pending)
            && (p.reused <==> hash(data) in objects || (!apply && hash(data) in view.cache))
  {
    var digest := hash(data);
    if digest in objects {
      assert hash(objects[digest]) == hash(data);
      assert objects[digest := data] == objects;
    }
  }

  lemma NamesGrow(hash: Bytes -> Digest, objects: map<Digest, Bytes>, parts: seq<Ref>, pieces: seq<Bytes>, i: nat,
                  more: map<Digest, Bytes>, ref: Ref)
    requires i < |pieces| && Names(hash, objects, parts, pieces[..i])
    requires forall k | k in objects :: k in more && more[k] == objects[k]
    requires ref == Ref(hash(pieces[i]), |pieces[i]|) && hash(pieces[i]) in more && more[hash(pieces[i])] == pieces[i]
    ensures Names(hash, more, parts + [ref], pieces[..i + 1])
  {
    assert pieces[..i + 1] == pieces[..i] + [pieces[i]];
  }

  /** Pieces that are all there read back as their concatenation. */
  lemma {:induction false} NamesReadBack(hash: Bytes -> Digest, objects: map<Digest, Bytes>, parts: seq<Ref>,
                                         pieces: seq<Bytes>)
    requires Names(hash, objects, parts, pieces)
    ensures ReadParts(hash, objects, parts) == Some(Join(pieces))
    decreases |parts|
  {
    if parts != [] {
      var n := |parts| - 1;
      NamesReadBack(hash, objects, parts[..n], pieces[..n]);
      assert pieces == pieces[..n] + [pieces[n]];
      JoinAppend(pieces[..n], [pieces[n]]);
      JoinOne(pieces[n]);
    }
  }

  // ---------------------------------------------------------------- the system

  datatype Phase = Storing | Verified | Synced

  /**
    Who holds the lock.  `left` are the pieces still to be stored; `leftovers` are the objects that were on disk
    without having been synced when the fold started (no code looks at them).
  */
  datatype Holder =
    | Free
    | Folding(session: Session, source: Bytes, overwrite: bool, left: seq<Bytes>, parts: seq<Ref>, view: View,
              leftovers: set<Digest>, phase: Phase)
    | Collecting

  datatype System = System(disk: Disk, holder: Holder)

  datatype Action =
    | StartFold(session: Session, pieces: seq<Bytes>, overwrite: bool)
    | Price(data: Bytes)
    | Put
    | Verify
    | Sync
    | Commit
    | StartCollect
    | Remove(digest: Digest)
    | Release                      // done, failed or dead: the lock is gone
    | PowerLoss(lost: set<Digest>)

  function ManifestOf(hash: Bytes -> Digest, h: Holder): Manifest
    requires h.Folding?
  {
    Manifest(h.parts, |h.source|, hash(h.source))
  }

  ghost predicate Enabled(hash: Bytes -> Digest, s: System, a: Action) {
    match a
    case StartFold(_, _, _) => s.holder.Free?
    case Price(_) => s.holder.Folding? && s.holder.phase == Storing
    case Put =>
      && s.holder.Folding? && s.holder.phase == Storing && s.holder.left != []
      && PutObject(hash, s.disk.objects, s.holder.view, s.holder.left[0], true).ref.Some?
    case Verify =>
      && s.holder.Folding? && s.holder.phase == Storing && s.holder.left == []
      && Restore(hash, s.disk.objects, ManifestOf(hash, s.holder)).Some?
    case Sync => s.holder.Folding? && s.holder.phase == Verified
    case Commit =>
      && s.holder.Folding? && s.holder.phase == Synced
      && (s.holder.session in s.disk.manifests ==> s.holder.overwrite)
    case StartCollect => s.holder.Free?
    case Remove(d) =>
      && s.holder.Collecting? && d in s.disk.objects && hash(s.disk.objects[d]) == d
      && !Referenced(s.disk.manifests, d)
    case Release => !s.holder.Free?
    case PowerLoss(lost) => lost <= s.disk.objects.Keys - s.disk.synced
  }

  function Lose(d: Disk, lost: set<Digest>): Disk {
    d.(objects := d.objects - lost, synced := d.synced - lost)
  }

  ghost function Apply(hash: Bytes -> Digest, s: System, a: Action): System
    requires Enabled(hash, s, a)
  {
    match a
    case StartFold(session, pieces, overwrite) =>
      s.(holder := Folding(session, Join(pieces), overwrite, pieces, [], NO_VIEW, s.disk.objects.Keys - s.disk.synced,
          Storing))
    case Price(data) =>
      s.(holder := s.holder.(view := PutObject(hash, s.disk.objects, s.holder.view, data, false).view))
    case Put =>
      var p := PutObject(hash, s.disk.objects, s.holder.view, s.holder.left[0], true);
      System(s.disk.(objects := p.objects),
             s.holder.(view := p.view, left := s.holder.left[1..], parts := s.holder.parts + [p.ref.value]))
    case Verify => s.(holder := s.holder.(phase := Verified))
    case Sync =>
      System(s.disk.(synced := s.disk.synced + s.holder.view.pending),
             s.holder.(phase := Synced, view := s.holder.view.(pending := {})))
    case Commit =>
      System(s.disk.(manifests := s.disk.manifests[s.holder.session := ManifestOf(hash, s.holder)]), Free)
    case StartCollect => s.(holder := Collecting)
    case Remove(d) => s.(disk := Lose(s.disk, {d}))
    case Release => s.(holder := Free)
    case PowerLoss(lost) => System(Lose(s.disk, lost), Free)
  }

  const START := System(Disk(map[], {}, map[]), Free)

  ghost predicate Legal(hash: Bytes -> Digest, s: System, run: seq<Action>)
    decreases |run|
  {
    run == [] || (Enabled(hash, s, run[0]) && Legal(hash, Apply(hash, s, run[0]), run[1..]))
  }

  ghost function After(hash: Bytes -> Digest, s: System, run: seq<Action>): System
    requires Legal(hash, s, run)
    decreases |run|
  {
    if run == [] then s else After(hash, Apply(hash, s, run[0]), run[1..])
  }

  // ---------------------------------------------------------------- what every step keeps

  /** The verified manifest of the fold that holds the lock stays restorable until it is committed. */
  ghost predicate Safe(hash: Bytes -> Digest, s: System) {
    && Intact(hash, s.disk)
    && s.disk.synced <= s.disk.objects.Keys
    && (s.holder.Folding? ==>
          && s.holder.view.pending <= s.disk.objects.Keys
          && s.holder.leftovers !! s.disk.synced && s.holder.leftovers !! s.holder.view.pending
          && s.holder.leftovers <= s.disk.objects.Keys
          && s.disk.objects.Keys <= s.disk.synced + s.holder.view.pending + s.holder.leftovers
          && (s.holder.phase == Synced ==> s.holder.view.pending == {})
          && (s.holder.phase != Storing ==> Restore(hash, s.disk.objects, ManifestOf(hash, s.holder)).Some?))
  }

  /** The same manifests, restoring to the same bytes. */
  ghost predicate SameContents(hash: Bytes -> Digest, d: Disk, e: Disk) {
    && e.manifests == d.manifests
    && forall s | s in d.manifests ::
         Restore(hash, e.objects, d.manifests[s]) == Restore(hash, d.objects, d.manifests[s])
  }

  lemma IntactGrows(hash: Bytes -> Digest, d: Disk, objects: map<Digest, Bytes>)
    requires Intact(hash, d)
    requires forall k | k in d.objects :: k in objects && objects[k] == d.objects[k]
    ensures Intact(hash, d.(objects := objects)) && SameContents(hash, d, d.(objects := objects))
  {
    forall s | s in d.manifests
      ensures Restore(hash, objects, d.manifests[s]) == Restore(hash, d.objects, d.manifests[s])
    {
      ReadPartsAgree(hash, d.objects, objects, d.manifests[s].parts);
    }
  }

  /** Losing objects that no manifest uses keeps every manifest restorable. */
  lemma IntactWithout(hash: Bytes -> Digest, d: Disk, lost: set<Digest>)
    requires Intact(hash, d)
    requires forall k | k in lost :: !Referenced(d.manifests, k)
    ensures Intact(hash, Lose(d, lost)) && SameContents(hash, d, Lose(d, lost))
  {
    var kept := d.objects - lost;
    forall s | s in d.manifests
      ensures Restore(hash, kept, d.manifests[s]) == Restore(hash, d.objects, d.manifests[s])
    {
      var parts := d.manifests[s].parts;
      forall i | 0 <= i < |parts| && parts[i].digest in d.objects
        ensures parts[i].digest in kept && kept[parts[i].digest] == d.objects[parts[i].digest]
      {
        assert Uses(d.manifests[s], parts[i].digest);
      }
      ReadPartsAgree(hash, d.objects, kept, parts);
    }
  }

  lemma PutKeepsSafe(hash: Bytes -> Digest, s: System)
    requires Safe(hash, s) && Enabled(hash, s, Put)
    ensures Safe(hash, Apply(hash, s, Put))
  {
    var p := PutObject(hash, s.disk.objects, s.holder.view, s.holder.left[0], true);
    IntactGrows(hash, s.disk, p.objects);
  }

  lemma CommitKeepsSafe(hash: Bytes -> Digest, s: System)
    requires Safe(hash, s) && Enabled(hash, s, Commit)
    ensures Safe(hash, Apply(hash, s, Commit))
  {
    var t := Apply(hash, s, Commit);
    forall k | k in t.disk.manifests
      ensures Restore(hash, t.disk.objects, t.disk.manifests[k]).Some?
    {
      if k != s.holder.session {
        assert k in s.disk.manifests;
      }
    }
  }

  /** Every step but a power loss keeps every committed manifest restorable. */
  lemma StepKeepsSafe(hash: Bytes -> Digest, s: System, a: Action)
    requires Safe(hash, s) && Enabled(hash, s, a) && !a.PowerLoss?
    ensures Safe(hash, Apply(hash, s, a))
  {
    match a
    case Put => PutKeepsSafe(hash, s);
    case Commit => CommitKeepsSafe(hash, s);
    case Remove(d) => IntactWithout(hash, s.disk, {d});
    case _ =>
  }

  /** Whatever folds and collections run, dying anywhere, no committed manifest loses an object. */
  lemma {:induction false} RunKeepsIntact(hash: Bytes -> Digest, s: System, run: seq<Action>)
    requires Safe(hash, s) && Legal(hash, s, run)
    requires forall i | 0 <= i < |run| :: !run[i].PowerLoss?
    ensures Safe(hash, After(hash, s, run)) && Intact(hash, After(hash, s, run).disk)
    decreases |run|
  {
    if run != [] {
      StepKeepsSafe(hash, s, run[0]);
      assert forall i | 0 <= i < |run| - 1 :: run[1..][i] == run[i + 1];
      RunKeepsIntact(hash, Apply(hash, s, run[0]), run[1..]);
    }
  }

  // ---------------------------------------------------------------- no fold gets stuck

  /** What the fold has stored reads back, and with what is left it makes up the source. */
  ghost predicate OnTrack(hash: Bytes -> Digest, s: System) {
    && WellNamed(hash, s.disk.objects)
    && (s.holder.Folding? && s.holder.phase == Storing ==>
          && CacheFits(hash, s.disk.objects, s.holder.view)
          && ReadParts(hash, s.disk.objects, s.holder.parts).Some?
          && s.holder.source == ReadParts(hash, s.disk.objects, s.holder.parts).value + Join(s.holder.left))
  }

  /** What is read back with one more piece on disk and one more part. */
  lemma ReadOneMore(hash: Bytes -> Digest, objects: map<Digest, Bytes>, parts: seq<Ref>, data: Bytes)
    requires Injective(hash) && WellNamed(hash, objects) && ReadParts(hash, objects, parts).Some?
    ensures var more := objects[hash(data) := data];
            ReadParts(hash, more, parts + [Ref(hash(data), |data|)]) ==
            Some(ReadParts(hash, objects, parts).value + data)
  {
    var more, longer := objects[hash(data) := data], parts + [Ref(hash(data), |data|)];
    if hash(data) in objects {
      assert hash(objects[hash(data)]) == hash(data);
    }
    ReadPartsAgree(hash, objects, more, parts);
    assert longer[..|parts|] == parts;
  }

  lemma JoinRest(front: Bytes, left: seq<Bytes>)
    requires left != []
    ensures front + Join(left) == (front + left[0]) + Join(left[1..])
  {
    assert front + (left[0] + Join(left[1..])) == (front + left[0]) + Join(left[1..]);
  }

  lemma PutKeepsOnTrack(hash: Bytes -> Digest, s: System)
    requires Injective(hash) && OnTrack(hash, s)
    requires s.holder.Folding? && s.holder.phase == Storing && s.holder.left != []
    ensures Enabled(hash, s, Put) && OnTrack(hash, Apply(hash, s, Put))
  {
    var h, objects := s.holder, s.disk.objects;
    PutNames(hash, objects, h.view, h.left[0], true);
    ReadOneMore(hash, objects, h.parts, h.left[0]);
    JoinRest(ReadParts(hash, objects, h.parts).value, h.left);
  }

  lemma StepKeepsOnTrack(hash: Bytes -> Digest, s: System, a: Action)
    requires Injective(hash) && OnTrack(hash, s) && Enabled(hash, s, a)
    ensures OnTrack(hash, Apply(hash, s, a))
  {
    match a
    case Put => PutKeepsOnTrack(hash, s);
    case Price(data) => PutNames(hash, s.disk.objects, s.holder.view, data, false);
    case StartFold(_, pieces, _) => assert [] + Join(pieces) == Join(pieces);
    case _ =>
  }

  lemma {:induction false} RunKeepsOnTrack(hash: Bytes -> Digest, s: System, run: seq<Action>)
    requires Injective(hash) && OnTrack(hash, s) && Legal(hash, s, run)
    ensures OnTrack(hash, After(hash, s, run))
    decreases |run|
  {
    if run != [] {
      StepKeepsOnTrack(hash, s, run[0]);
      RunKeepsOnTrack(hash, Apply(hash, s, run[0]), run[1..]);
    }
  }

  /**
    Without collisions, whatever was priced, stored, collected or lost before: a fold that holds the lock can store its
    next piece, and when all are stored it passes its verification, with the source as the bytes read back.
  */
  lemma FoldsNeverGetStuck(hash: Bytes -> Digest, run: seq<Action>)
    requires Injective(hash) && Legal(hash, START, run)
    ensures var s := After(hash, START, run);
            s.holder.Folding? && s.holder.phase == Storing ==>
              if s.holder.left != [] then Enabled(hash, s, Put)
              else && Enabled(hash, s, Verify)
                   && Restore(hash, s.disk.objects, ManifestOf(hash, s.holder)) == Some(s.holder.source)
  {
    RunKeepsOnTrack(hash, START, run);
    var s := After(hash, START, run);
    if s.holder.Folding? && s.holder.phase == Storing {
      if s.holder.left != [] {
        PutKeepsOnTrack(hash, s);
      } else {
        var back := ReadParts(hash, s.disk.objects, s.holder.parts).value;
        assert back + Join([]) == back;
      }
    }
  }

  /** What `session` restores to; None when it has no manifest. */
  function Contents(hash: Bytes -> Digest, d: Disk, session: Session): Option<Bytes> {
    if session in d.manifests then Restore(hash, d.objects, d.manifests[session]) else None
  }

  /** The run commits nothing for `session`. */
  ghost predicate LeavesAlone(hash: Bytes -> Digest, s: System, run: seq<Action>, session: Session)
    requires Legal(hash, s, run)
    decreases |run|
  {
    run == [] ||
    ((run[0].Commit? ==> s.holder.session != session) && LeavesAlone(hash, Apply(hash, s, run[0]), run[1..], session))
  }

  lemma StepKeepsContents(hash: Bytes -> Digest, s: System, a: Action, session: Session)
    requires Safe(hash, s) && Enabled(hash, s, a) && !a.PowerLoss? && session in s.disk.manifests
    requires a.Commit? ==> s.holder.session != session
    ensures session in Apply(hash, s, a).disk.manifests
    ensures Contents(hash, Apply(hash, s, a).disk, session) == Contents(hash, s.disk, session)
  {
    match a
    case Put =>
      IntactGrows(hash, s.disk, PutObject(hash, s.disk.objects, s.holder.view, s.holder.left[0], true).objects);
    case Remove(d) => IntactWithout(hash, s.disk, {d});
    case _ =>
  }

  /**
    From the commit of `source` on, until the session is folded again, every state restores it to bytes with the
    size and digest of `source`; without a collision for `source` that is `source` itself.
  */
  lemma CommittedForever(hash: Bytes -> Digest, s: System, run: seq<Action>)
    requires Safe(hash, s) && Enabled(hash, s, Commit)
    requires Legal(hash, Apply(hash, s, Commit), run)
    requires LeavesAlone(hash, Apply(hash, s, Commit), run, s.holder.session)
    requires forall i | 0 <= i < |run| :: !run[i].PowerLoss?
    ensures var r := Contents(hash, After(hash, Apply(hash, s, Commit), run).disk, s.holder.session);
            && r.Some? && |r.value| == |s.holder.source| && hash(r.value) == hash(s.holder.source)
            && (NoCollision(hash, s.holder.source) ==> r.value == s.holder.source)
  {
    CommitKeepsSafe(hash, s);
    RunKeepsContents(hash, Apply(hash, s, Commit), run, s.holder.session);
  }

  ghost predicate NoCollision(hash: Bytes -> Digest, source: Bytes) {
    forall b: Bytes | hash(b) == hash(source) && |b| == |source| :: b == source
  }

  lemma {:induction false} RunKeepsContents(hash: Bytes -> Digest, s: System, run: seq<Action>, session: Session)
    requires Safe(hash, s) && Legal(hash, s, run) && LeavesAlone(hash, s, run, session) && session in s.disk.manifests
    requires forall i | 0 <= i < |run| :: !run[i].PowerLoss?
    ensures Contents(hash, After(hash, s, run).disk, session) == Contents(hash, s.disk, session)
    decreases |run|
  {
    if run != [] {
      StepKeepsSafe(hash, s, run[0]);
      StepKeepsContents(hash, s, run[0], session);
      assert forall i | 0 <= i < |run| - 1 :: run[1..][i] == run[i + 1];
      RunKeepsContents(hash, Apply(hash, s, run[0]), run[1..], session);
    }
  }

  // ---------------------------------------------------------------- power loss

  /** No power loss can hurt a committed manifest. */
  ghost predicate PowerSafe(hash: Bytes -> Digest, d: Disk) {
    forall lost: set<Digest> | lost <= d.objects.Keys - d.synced :: Intact(hash, Lose(d, lost))
  }

  /** Every object of every manifest has been synced. */
  ghost predicate AllSynced(d: Disk) {
    forall k | Referenced(d.manifests, k) :: k in d.synced
  }

  lemma LostObjectBreaks(hash: Bytes -> Digest, d: Disk, k: Digest)
    requires Referenced(d.manifests, k)
    ensures !Intact(hash, Lose(d, {k}))
  {
    var s :| s in d.manifests && Uses(d.manifests[s], k);
    var i :| 0 <= i < |d.manifests[s].parts| && d.manifests[s].parts[i].digest == k;
    if Restore(hash, d.objects - {k}, d.manifests[s]).Some? {
      ReadPartsPresent(hash, d.objects - {k}, d.manifests[s].parts, i);
    }
    assert s in Lose(d, {k}).manifests;
  }

  lemma PowerSafeIff(hash: Bytes -> Digest, d: Disk)
    requires Intact(hash, d)
    ensures PowerSafe(hash, d) <==> AllSynced(d)
  {
    if AllSynced(d) {
      forall lost: set<Digest> | lost <= d.objects.Keys - d.synced
        ensures Intact(hash, Lose(d, lost))
      {
        IntactWithout(hash, d, lost);
      }
    } else {
      var k :| Referenced(d.manifests, k) && k !in d.synced;
      var s :| s in d.manifests && Uses(d.manifests[s], k);
      var i :| 0 <= i < |d.manifests[s].parts| && d.manifests[s].parts[i].digest == k;
      ReadPartsPresent(hash, d.objects, d.manifests[s].parts, i);
      LostObjectBreaks(hash, d, k);
      assert {k} <= d.objects.Keys - d.synced;
    }
  }

  /** The fold about to commit uses nothing that an earlier run left unsynced. */
  ghost predicate Careful(hash: Bytes -> Digest, s: System) {
    s.holder.Folding? ==> forall k | k in s.holder.leftovers :: !Uses(ManifestOf(hash, s.holder), k)
  }

  /** A commit is safe against power loss exactly when the fold reused no object that was never synced. */
  lemma CommitSurvivesPowerLossIff(hash: Bytes -> Digest, s: System)
    requires Safe(hash, s) && PowerSafe(hash, s.disk) && Enabled(hash, s, Commit)
    ensures PowerSafe(hash, Apply(hash, s, Commit).disk) <==> Careful(hash, s)
  {
    var t := Apply(hash, s, Commit);
    var m := ManifestOf(hash, s.holder);
    CommitKeepsSafe(hash, s);
    PowerSafeIff(hash, s.disk);
    PowerSafeIff(hash, t.disk);
    assert t.disk.manifests[s.holder.session] == m;
    if Careful(hash, s) {
      forall k | Referenced(t.disk.manifests, k)
        ensures k in t.disk.synced
      {
        CommittedPartsPresent(hash, s, k);
      }
    } else {
      var k :| k in s.holder.leftovers && Uses(m, k);
      assert Referenced(t.disk.manifests, k) && k !in t.disk.synced;
    }
  }

  lemma CommittedPartsPresent(hash: Bytes -> Digest, s: System, k: Digest)
    requires Safe(hash, s) && Enabled(hash, s, Commit) && AllSynced(s.disk) && Careful(hash, s)
    requires Referenced(Apply(hash, s, Commit).disk.manifests, k)
    ensures k in s.disk.synced
  {
    var t := Apply(hash, s, Commit);
    var other :| other in t.disk.manifests && Uses(t.disk.manifests[other], k);
    if other == s.holder.session {
      var m := ManifestOf(hash, s.holder);
      var i :| 0 <= i < |m.parts| && m.parts[i].digest == k;
      ReadPartsPresent(hash, s.disk.objects, m.parts, i);
    } else {
      assert Referenced(s.disk.manifests, k);
    }
  }

  ghost predicate CarefulRun(hash: Bytes -> Digest, s: System, run: seq<Action>)
    requires Legal(hash, s, run)
    decreases |run|
  {
    run == [] || ((run[0].Commit? ==> Careful(hash, s)) && CarefulRun(hash, Apply(hash, s, run[0]), run[1..]))
  }

  lemma AllSyncedStep(hash: Bytes -> Digest, s: System, a: Action)
    requires Safe(hash, s) && AllSynced(s.disk) && Enabled(hash, s, a)
    requires a.Commit? ==> Careful(hash, s)
    ensures Safe(hash, Apply(hash, s, a)) && AllSynced(Apply(hash, s, a).disk)
  {
    match a
    case PowerLoss(lost) => IntactWithout(hash, s.disk, lost);
    case Commit =>
      CommitKeepsSafe(hash, s);
      forall k | Referenced(Apply(hash, s, Commit).disk.manifests, k)
        ensures k in s.disk.synced
      {
        CommittedPartsPresent(hash, s, k);
      }
    case _ => StepKeepsSafe(hash, s, a);
  }

  /** With careful commits, power losses anywhere in the run are harmless too. */
  lemma {:induction false} CarefulRunsSurvivePowerLoss(hash: Bytes -> Digest, s: System, run: seq<Action>)
    requires Safe(hash, s) && AllSynced(s.disk) && Legal(hash, s, run) && CarefulRun(hash, s, run)
    ensures Intact(hash, After(hash, s, run).disk) && PowerSafe(hash, After(hash, s, run).disk)
    decreases |run|
  {
    if run == [] {
      PowerSafeIff(hash, s.disk);
    } else {
      AllSyncedStep(hash, s, run[0]);
      CarefulRunsSurvivePowerLoss(hash, Apply(hash, s, run[0]), run[1..]);
    }
  }

  // ---------------------------------------------------------------- the store as shipped is not always careful

  /** A fold of `data` up to its commit. */
  ghost function FoldThen(data: Bytes, rest: seq<Action>): seq<Action> {
    [StartFold(0, [data], false)] + ([Put] + ([Verify] + ([Sync] + ([Commit] + rest))))
  }

  /** A fold dies after storing `data`; a second fold reuses the object and commits; the power fails. */
  ghost function UncarefulRun(hash: Bytes -> Digest, data: Bytes): seq<Action> {
    [StartFold(0, [data], false)] + ([Put] + ([Release] + FoldThen(data, [PowerLoss({hash(data)})])))
  }

  lemma PowerLossCanBreakAManifest(hash: Bytes -> Digest, data: Bytes)
    ensures Legal(hash, START, UncarefulRun(hash, data))
    ensures !Intact(hash, After(hash, START, UncarefulRun(hash, data)).disk)
  {
    var d := hash(data);
    var ref := Ref(d, |data|);
    JoinOne(data);
    var disk := Disk(map[d := data], {}, map[]);
    var started := System(START.disk, Folding(0, data, false, [data], [], NO_VIEW, {}, Storing));
    var stored := System(disk, Folding(0, data, false, [], [ref], View(map[d := Cached(ref, true)], {d}), {}, Storing));
    var rest := FoldThen(data, [PowerLoss({d})]);
    ReuseThenPowerLoss(hash, data);
    OneStep(hash, stored, Release, rest, System(disk, Free));
    OneStep(hash, started, Put, [Release] + rest, stored);
    OneStep(hash, START, StartFold(0, [data], false), [Put] + ([Release] + rest), started);
  }

  lemma ReuseThenPowerLoss(hash: Bytes -> Digest, data: Bytes)
    ensures var d := hash(data); var s := System(Disk(map[d := data], {}, map[]), Free);
            var run := FoldThen(data, [PowerLoss({d})]);
            Legal(hash, s, run) && !Intact(hash, After(hash, s, run).disk)
  {
    var d := hash(data);
    JoinOne(data);
    var stored := Reusing(hash, data);
    var started := stored.(holder := stored.holder.(left := [data], parts := [], view := NO_VIEW));
    var rest := [Verify] + ([Sync] + ([Commit] + [PowerLoss({d})]));
    CommitThenPowerLoss(hash, data);
    OneStep(hash, started, Put, rest, stored);
    OneStep(hash, System(stored.disk, Free), StartFold(0, [data], false), [Put] + rest, started);
  }

  /** A fold has found its only object on disk, not synced. */
  ghost function Reusing(hash: Bytes -> Digest, data: Bytes): System {
    var d := hash(data);
    var ref := Ref(d, |data|);
    System(Disk(map[d := data], {}, map[]),
           Folding(0, data, false, [], [ref], View(map[d := Cached(ref, true)], {}), {d}, Storing))
  }

  lemma CommitThenPowerLoss(hash: Bytes -> Digest, data: Bytes)
    ensures var run := [Verify] + ([Sync] + ([Commit] + [PowerLoss({hash(data)})]));
            Legal(hash, Reusing(hash, data), run) && !Intact(hash, After(hash, Reusing(hash, data), run).disk)
  {
    var d := hash(data);
    var stored := Reusing(hash, data);
    var verified := stored.(holder := stored.holder.(phase := Verified));
    var synced := stored.(holder := stored.holder.(phase := Synced));
    var m := Manifest([Ref(d, |data|)], |data|, d);
    var committed := System(stored.disk.(manifests := map[0 := m]), Free);
    OneStep(hash, committed, PowerLoss({d}), [], System(Lose(committed.disk, {d}), Free));
    OneStep(hash, synced, Commit, [PowerLoss({d})], committed);
    OneStep(hash, verified, Sync, [Commit] + [PowerLoss({d})], synced);
    OneRestored(hash, data);
    OneStep(hash, stored, Verify, [Sync] + ([Commit] + [PowerLoss({d})]), verified);
    assert Uses(m, d) by { assert m.parts[0].digest == d; }
    assert committed.disk.manifests[0] == m;
    LostObjectBreaks(hash, committed.disk, d);
  }

  lemma OneRestored(hash: Bytes -> Digest, data: Bytes)
    ensures var d := hash(data); Restore(hash, map[d := data], Manifest([Ref(d, |data|)], |data|, d)) == Some(data)
  {
    var d := hash(data);
    var ref := Ref(d, |data|);
    assert [ref][..0] == [];
    assert [] + data == data;
    assert ReadParts(hash, map[d := data], [ref]) == Some(data);
  }

  /** Taking the first step of a run whose rest is legal. */
  lemma OneStep(hash: Bytes -> Digest, s: System, a: Action, rest: seq<Action>, t: System)
    requires Enabled(hash, s, a) && Apply(hash, s, a) == t && Legal(hash, t, rest)
    ensures Legal(hash, s, [a] + rest) && After(hash, s, [a] + rest) == After(hash, t, rest)
  {
    assert ([a] + rest)[1..] == rest;
  }
}
