/**
  Folding a rollout into the store and unfolding it again.
*/
module RoundTrip {
  import opened Common
  import opened Records
  import FoldSpec
  import Fold
  import opened StoreProtocol
  import opened Store

  /** An applying fold: cut the rollout, store the parts, commit the manifest. */
  method FoldInto(settings: FoldSpec.Settings, data: Bytes, buffer: nat, hash: Bytes -> Digest, files: Files,
                  session: Session, changed: bool, overwrite: bool, writes: nat)
    returns (ok: bool)
    requires settings.Valid() && buffer > 0 && Intact(hash, files.Now())
    modifies files
    ensures Intact(hash, files.Now())
    ensures forall s | s in old(files.manifests) && s != session ::
              Contents(hash, files.Now(), s) == old(Contents(hash, files.Now(), s))
    ensures !ok ==> SameContents(hash, old(files.Now()), files.Now())
    ensures ok ==> var r := Contents(hash, files.Now(), session);
                   && r.Some? && |r.value| == |data| && hash(r.value) == hash(data)
                   && (NoCollision(hash, data) ==> r.value == data)
    ensures Injective(hash) && WellNamed(hash, old(files.objects)) ==>
              writes > 2 * |FoldSpec.FoldOf(settings, data).parts| ==>
              (ok <==> !changed && (session in old(files.manifests) ==> overwrite))
    ensures ok ==> !changed
  {
    var run := new Fold.FoldRun(settings);
    run.Run(data, buffer);
    var store := new ObjectStore(files, hash);
    ok := store.Commit(session, FoldSpec.Data(run.parts), changed, overwrite, writes);
  }

  /**
    A rollout that was folded and committed comes back byte for byte, also after a collection that dies anywhere.
  */
  method FoldThenUnfold(settings: FoldSpec.Settings, data: Bytes, buffer: nat, hash: Bytes -> Digest, files: Files,
                        session: Session, changed: bool, overwrite: bool, writes: nat, evidence: nat -> Evidence,
                        collectWrites: nat)
    returns (ok: bool, restored: Option<Bytes>)
    requires settings.Valid() && buffer > 0 && Intact(hash, files.Now()) && NoCollision(hash, data)
    modifies files
    ensures Intact(hash, files.Now())
    ensures ok ==> restored == Some(data)
  {
    ok := FoldInto(settings, data, buffer, hash, files, session, changed, overwrite, writes);
    var done := files.Collect(hash, evidence, collectWrites);
    restored := files.Unfold(hash, session);
  }
}
