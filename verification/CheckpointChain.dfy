/**
  The checkpoint directory of a session that is being retired: its files must form one lineage, ending in the
  checkpoint that the catalog names, and the retirement request must be bound to a member of it.
*/
module CheckpointChain {
  import opened Common

  type Digest = nat

  /** `body` stands for the whole recorded state, `state` for the digest of its bytes. */
  datatype Checkpoint = Checkpoint(sequence: nat, generation: nat, state: Digest, body: nat, previous: Option<Digest>)

  /** A directory entry; `content` is None when the file does not decode or is not a valid checkpoint. */
  datatype Entry =
    | Temporary(empty: bool)
    | File(digest: Digest, nameFits: bool, content: Option<Checkpoint>)

  datatype Catalog = Catalog(generation: nat, sequence: nat, state: Digest, checkpoint: Digest, nameFits: bool)

  datatype Result<+T> = Accepted(value: T) | Refused

  type Checkpoints = map<Digest, Checkpoint>

  // ---------------------------------------------------------------- lineages

  ghost predicate Follows(cs: Checkpoints, child: Digest, parent: Digest) {
    && child in cs && parent in cs && cs[child].previous == Some(parent)
    && cs[parent].sequence < cs[child].sequence && cs[parent].generation <= cs[child].generation
  }

  /** `chain` runs from `from` through its ancestors. */
  ghost predicate Path(cs: Checkpoints, from: Digest, chain: seq<Digest>) {
    && chain != [] && chain[0] == from
    && (forall i | 0 <= i < |chain| :: chain[i] in cs)
    && forall i | 0 <= i < |chain| - 1 :: Follows(cs, chain[i], chain[i + 1])
  }

  /** All checkpoints, newest first, down to the one without a parent. */
  ghost predicate Lineage(cs: Checkpoints, from: Digest, chain: seq<Digest>) {
    && Path(cs, from, chain)
    && (forall d | d in cs :: d in chain)
    && cs[chain[|chain| - 1]].previous.None?
  }

  /** Further down a lineage the sequence falls strictly and the generation never rises. */
  lemma {:induction false} PathDescends(cs: Checkpoints, from: Digest, chain: seq<Digest>, i: nat, j: nat)
    requires Path(cs, from, chain) && i < j < |chain|
    ensures chain[i] in cs && chain[j] in cs
    ensures cs[chain[j]].sequence < cs[chain[i]].sequence && cs[chain[j]].generation <= cs[chain[i]].generation
    decreases j - i
  {
    assert Follows(cs, chain[i], chain[i + 1]);
    if i + 1 < j {
      PathDescends(cs, from, chain, i + 1, j);
    }
  }

  lemma {:induction false} PathsAgree(cs: Checkpoints, from: Digest, a: seq<Digest>, b: seq<Digest>, i: nat)
    requires Path(cs, from, a) && Path(cs, from, b) && i < |a| && i < |b|
    ensures a[i] == b[i]
  {
    if i > 0 {
      PathsAgree(cs, from, a, b, i - 1);
      assert Follows(cs, a[i - 1], a[i]) && Follows(cs, b[i - 1], b[i]);
    }
  }

  /** Where a shorter path ends, a longer one goes on to the parent. */
  lemma PathExtends(cs: Checkpoints, from: Digest, a: seq<Digest>, b: seq<Digest>)
    requires Path(cs, from, a) && Path(cs, from, b) && |a| < |b|
    ensures Follows(cs, a[|a| - 1], b[|a|])
  {
    PathsAgree(cs, from, a, b, |a| - 1);
    assert Follows(cs, b[|a| - 1], b[|a|]);
  }

  /** Two paths that both reach a checkpoint without a parent are the same. */
  lemma SameEnd(cs: Checkpoints, from: Digest, a: seq<Digest>, b: seq<Digest>)
    requires Path(cs, from, a) && Path(cs, from, b)
    requires cs[a[|a| - 1]].previous.None? && cs[b[|b| - 1]].previous.None?
    ensures a == b
  {
    if |a| < |b| {
      PathExtends(cs, from, a, b);
    }
    if |b| < |a| {
      PathExtends(cs, from, b, a);
    }
    forall i | 0 <= i < |a| && i < |b|
      ensures a[i] == b[i]
    {
      PathsAgree(cs, from, a, b, i);
    }
  }

  /** There is at most one lineage. */
  lemma LineageIsUnique(cs: Checkpoints, from: Digest, a: seq<Digest>, b: seq<Digest>)
    requires Lineage(cs, from, a) && Lineage(cs, from, b)
    ensures a == b
  {
    SameEnd(cs, from, a, b);
  }

  // ---------------------------------------------------------------- loading

  /** The listing up to `i` holds only empty temporaries and distinct, valid, well-named checkpoints. */
  ghost predicate Sound(entries: seq<Entry>, i: nat)
    requires i <= |entries|
  {
    && (forall k | 0 <= k < i :: SoundEntry(entries[k]))
    && (forall k, l | 0 <= k < l < i && entries[k].File? && entries[l].File? :: entries[k].digest != entries[l].digest)
  }

  predicate SoundEntry(e: Entry) {
    match e
    case Temporary(empty) => empty
    case File(_, nameFits, content) => nameFits && content.Some?
  }

  ghost predicate Holds(entries: seq<Entry>, i: nat, cs: Checkpoints)
    requires i <= |entries|
  {
    && (forall k | 0 <= k < i && entries[k].File? ::
          entries[k].digest in cs && entries[k].content == Some(cs[entries[k].digest]))
    && (forall d | d in cs :: exists k | 0 <= k < i :: entries[k].File? && entries[k].digest == d)
  }

  method ReadCheckpoints(entries: seq<Entry>) returns (r: Result<Checkpoints>)
    ensures r.Accepted? <==> Sound(entries, |entries|)
    ensures r.Accepted? ==> Holds(entries, |entries|, r.value)
  {
    var cs: Checkpoints := map[];
    for i := 0 to |entries|
      invariant Sound(entries, i) && Holds(entries, i, cs)
    {
      match entries[i] {
        case Temporary(empty) =>
          if !empty {
            return Refused;
          }
        case File(digest, nameFits, content) =>
          if content.None? || !nameFits || digest in cs {
            return Refused;
          }
          cs := cs[digest := content.value];
      }
    }
    r := Accepted(cs);
  }

  /**
    The lineage walk.  It ends because sequences fall, so neither a repeated digest nor a missing one can be met on
    the way; codexfold refuses those two as well, in the branches marked unreachable.
  */
  method Walk(cs: Checkpoints, from: Digest) returns (r: Result<seq<Digest>>)
    requires from in cs
    ensures r.Accepted? ==> Lineage(cs, from, r.value)
    ensures r.Refused? ==> forall chain :: !Lineage(cs, from, chain)
  {
    var visited: set<Digest> := {};
    var digest, chain := from, [from];
    while true
      invariant Path(cs, from, chain) && chain[|chain| - 1] == digest && digest in cs
      invariant forall d :: d in visited <==> d in chain[..|chain| - 1]
      invariant |visited| == |chain| - 1
      decreases cs[digest].sequence
    {
      NotSeenBefore(cs, from, chain);
      if digest !in cs {
        assert false;
      }
      if digest in visited {
        assert false;
      }
      visited := visited + {digest};
      assert chain[..|chain| - 1] + [digest] == chain;
      var previous := cs[digest].previous;
      if previous.None? {
        break;
      }
      var parent := previous.value;
      if parent !in cs || cs[parent].sequence >= cs[digest].sequence || cs[parent].generation > cs[digest].generation {
        BrokenLink(cs, from, chain);
        return Refused;
      }
      chain, digest := chain + [parent], parent;
    }
    if |visited| != |cs| {
      Ambiguous(cs, from, chain, visited);
      return Refused;
    }
    SameSize(visited, cs.Keys);
    r := Accepted(chain);
  }

  lemma NotSeenBefore(cs: Checkpoints, from: Digest, chain: seq<Digest>)
    requires Path(cs, from, chain)
    ensures chain[|chain| - 1] !in chain[..|chain| - 1]
  {
    var n := |chain| - 1;
    forall i | 0 <= i < n
      ensures chain[i] != chain[n]
    {
      PathDescends(cs, from, chain, i, n);
    }
  }

  /** A walk that cannot go on although its last checkpoint names a parent: there is no lineage. */
  lemma BrokenLink(cs: Checkpoints, from: Digest, chain: seq<Digest>)
    requires Path(cs, from, chain)
    requires var last := chain[|chain| - 1];
             cs[last].previous.Some? && !Follows(cs, last, cs[last].previous.value)
    ensures forall other :: !Lineage(cs, from, other)
  {
    forall other: seq<Digest>
      ensures !Lineage(cs, from, other)
    {
      if |chain| < |other| && Path(cs, from, other) {
        PathExtends(cs, from, chain, other);
      } else if |other| < |chain| && Path(cs, from, other) {
        PathExtends(cs, from, other, chain);
      } else if Path(cs, from, other) {
        PathsAgree(cs, from, chain, other, |chain| - 1);
      }
    }
  }

  /** A complete walk that misses a checkpoint: there is no lineage. */
  lemma Ambiguous(cs: Checkpoints, from: Digest, chain: seq<Digest>, visited: set<Digest>)
    requires Path(cs, from, chain) && (forall d :: d in visited <==> d in chain) && |visited| != |cs|
    requires cs[chain[|chain| - 1]].previous.None?
    ensures forall other :: !Lineage(cs, from, other)
  {
    assert visited <= cs.Keys && |cs| == |cs.Keys|;
    assert visited != cs.Keys;
    var missed :| missed in cs && missed !in visited;
    forall other: seq<Digest>
      ensures !Lineage(cs, from, other)
    {
      if Path(cs, from, other) && cs[other[|other| - 1]].previous.None? {
        SameEnd(cs, from, chain, other);
      }
    }
  }

  lemma SameSize(a: set<Digest>, b: set<Digest>)
    requires a <= b && |a| == |b|
    ensures a == b
  {
    assert |b - a| == |b| - |a|;
    assert b - a == {};
  }

  predicate CatalogFits(cs: Checkpoints, catalog: Catalog) {
    && catalog.checkpoint in cs && catalog.nameFits
    && cs[catalog.checkpoint].generation == catalog.generation
    && cs[catalog.checkpoint].sequence == catalog.sequence
    && cs[catalog.checkpoint].state == catalog.state
  }

  /** The files are checkpoints that form one lineage from the catalog's checkpoint. */
  ghost predicate Chained(entries: seq<Entry>, catalog: Catalog, cs: Checkpoints, chain: seq<Digest>) {
    && Sound(entries, |entries|) && Holds(entries, |entries|, cs)
    && CatalogFits(cs, catalog) && Lineage(cs, catalog.checkpoint, chain)
  }

  /** A checkpoint directory is accepted exactly when its files are one lineage from the catalog's checkpoint. */
  method LoadChain(entries: seq<Entry>, catalog: Catalog) returns (r: Result<Checkpoints>)
    ensures r.Accepted? ==> exists chain :: Chained(entries, catalog, r.value, chain)
    ensures r.Refused? ==> forall cs, chain :: !Chained(entries, catalog, cs, chain)
  {
    var read := ReadCheckpoints(entries);
    if read.Refused? {
      return Refused;
    }
    var cs := read.value;
    OneReading(entries, cs);
    if !CatalogFits(cs, catalog) {
      return Refused;
    }
    var walked := Walk(cs, catalog.checkpoint);
    if walked.Refused? {
      return Refused;
    }
    assert Chained(entries, catalog, cs, walked.value);
    r := Accepted(cs);
  }

  lemma OneReading(entries: seq<Entry>, cs: Checkpoints)
    requires Holds(entries, |entries|, cs)
    ensures forall other | Holds(entries, |entries|, other) :: other == cs
  {
    forall other | Holds(entries, |entries|, other)
      ensures other == cs
    {
      assert forall d | d in other :: d in cs;
      assert forall d | d in cs :: d in other;
      forall d | d in cs
        ensures other[d] == cs[d]
      {
        var k :| 0 <= k < |entries| && entries[k].File? && entries[k].digest == d;
      }
    }
  }

  // ---------------------------------------------------------------- the request

  datatype State = State(generation: nat, digest: Digest, body: nat)

  datatype Binding = Binding(generation: nat, sequence: nat, state: Digest, checkpoint: Digest)

  /** The request is bound to this member of the lineage. */
  predicate Bound(cs: Checkpoints, request: Binding) {
    && request.checkpoint in cs && cs[request.checkpoint].sequence == request.sequence
    && cs[request.checkpoint].generation == request.generation && cs[request.checkpoint].state == request.state
  }

  predicate BindingMatches(state: State, catalog: Catalog, request: Binding) {
    && state.generation == request.generation && catalog.sequence == request.sequence
    && catalog.checkpoint == request.checkpoint && catalog.state == request.state
  }

  /** What the state file and the catalog must say, before any checkpoint is read. */
  predicate StateFits(state: State, catalog: Catalog, request: Binding, active: bool) {
    && (state.generation == request.generation || (active && state.generation == request.generation + 1))
    && catalog.generation == state.generation && catalog.sequence != 0 && catalog.state == state.digest
  }

  /** The whole condition: state, lineage, binding, and the session's other files (`artifacts`). */
  ghost predicate Proved(state: State, catalog: Catalog, entries: seq<Entry>, request: Binding, active: bool,
                         artifacts: bool,
                         cs: Checkpoints, chain: seq<Digest>) {
    && (state.generation == request.generation || (active && state.generation == request.generation + 1))
    && catalog.generation == state.generation && catalog.sequence > 0 && catalog.state == state.digest
    && Chained(entries, catalog, cs, chain)
    && cs[catalog.checkpoint].body == state.body && Bound(cs, request) && artifacts
  }

  /**
    The proof that recovery needs about a pending retirement; the result says whether the request still binds the
    newest checkpoint.  codexfold also refuses a lineage that moved behind the request: the branch marked
    unreachable.
  */
  method LoadStateProof(state: State, catalog: Catalog, entries: seq<Entry>, request: Binding, active: bool,
                        artifacts: bool)
    returns (r: Result<bool>)
    ensures r.Refused? ==> forall cs, chain :: !Proved(state, catalog, entries, request, active, artifacts, cs, chain)
    ensures r.Accepted? ==> exists cs, chain ::
              && Proved(state, catalog, entries, request, active, artifacts, cs, chain)
              && request.checkpoint in chain
              && (r.value <==> chain[0] == request.checkpoint)
              && (r.value || request.sequence < catalog.sequence)
    ensures r.Accepted? ==> (r.value <==> BindingMatches(state, catalog, request))
  {
    if !StateFits(state, catalog, request, active) {
      return Refused;
    }
    var loaded := LoadChain(entries, catalog);
    if loaded.Refused? {
      return Refused;
    }
    var cs := loaded.value;
    ghost var chain :| Chained(entries, catalog, cs, chain);
    OneReading(entries, cs);
    if cs[catalog.checkpoint].body != state.body || cs[catalog.checkpoint].state != state.digest {
      return Refused;
    }
    if !Bound(cs, request) {
      return Refused;
    }
    var matches := BindingMatches(state, catalog, request);
    NotBehind(cs, chain, state, catalog, request);
    if state.generation == request.generation && !matches && catalog.sequence <= request.sequence {
      assert false;
    }
    if !artifacts {
      return Refused;
    }
    assert Proved(state, catalog, entries, request, active, artifacts, cs, chain);
    r := Accepted(matches);
  }

  /** A bound request stands at the newest checkpoint or strictly below it. */
  lemma NotBehind(cs: Checkpoints, chain: seq<Digest>, state: State, catalog: Catalog, request: Binding)
    requires Lineage(cs, catalog.checkpoint, chain) && CatalogFits(cs, catalog) && Bound(cs, request)
    requires catalog.generation == state.generation
    ensures request.checkpoint in chain
    ensures BindingMatches(state, catalog, request) <==> chain[0] == request.checkpoint
    ensures BindingMatches(state, catalog, request) || request.sequence < catalog.sequence
  {
    var k :| 0 <= k < |chain| && chain[k] == request.checkpoint;
    if k > 0 {
      PathDescends(cs, catalog.checkpoint, chain, 0, k);
    }
  }
}
