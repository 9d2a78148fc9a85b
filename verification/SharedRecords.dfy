/**
  Counting the records two rollouts share, with multiplicity.  Candidates are found by fingerprint; a
  candidate whose bytes differ (a digest collision) is set aside and tried again for later records.
  `T` are the records, `K` their fingerprints, and `key` any function from one to the other.
*/
module SharedRecords {
  import opened Common

  // ---------------------------------------------------------------- which records of the right file are left

  /** The records of `right` not matched yet. */
  ghost function Free<T>(right: seq<T>, used: seq<bool>): multiset<T>
    requires |right| == |used|
    decreases |right|
  {
    if right == [] then multiset{}
    else
      var n := |right| - 1;
      Free(right[..n], used[..n]) + (if used[n] then multiset{} else multiset{right[n]})
  }

  lemma {:induction false} FreeAll<T>(right: seq<T>, used: seq<bool>)
    requires |right| == |used| && forall j | 0 <= j < |used| :: !used[j]
    ensures Free(right, used) == multiset(right)
    decreases |right|
  {
    if right != [] {
      var n := |right| - 1;
      FreeAll(right[..n], used[..n]);
      assert right == right[..n] + [right[n]];
    }
  }

  lemma {:induction false} FreeFrom<T>(right: seq<T>, used: seq<bool>, x: T) returns (j: nat)
    requires |right| == |used| && x in Free(right, used)
    ensures j < |right| && !used[j] && right[j] == x
    decreases |right|
  {
    var n := |right| - 1;
    if used[n] || right[n] != x {
      j := FreeFrom(right[..n], used[..n], x);
    } else {
      j := n;
    }
  }

  lemma {:induction false} FreeUse<T>(right: seq<T>, used: seq<bool>, j: nat)
    requires |right| == |used| && j < |right| && !used[j]
    ensures Free(right, used) == Free(right, used[j := true]) + multiset{right[j]}
    decreases |right|
  {
    var n := |right| - 1;
    if j < n {
      FreeUse(right[..n], used[..n], j);
      assert used[j := true][..n] == used[..n][j := true];
    } else {
      assert used[j := true][..n] == used[..n];
    }
  }

  // ---------------------------------------------------------------- where a fingerprint occurs

  function Positions<K(==)>(prints: seq<K>, f: K): seq<nat>
    decreases |prints|
  {
    if prints == [] then []
    else
      var n := |prints| - 1;
      Positions(prints[..n], f) + (if prints[n] == f then [n] else [])
  }

  ghost predicate Increasing(places: seq<nat>) {
    forall a, b | 0 <= a < b < |places| :: places[a] < places[b]
  }

  lemma {:induction false} PositionsAre<K>(prints: seq<K>, f: K)
    ensures forall n | 0 <= n < |Positions(prints, f)| ::
              Positions(prints, f)[n] < |prints| && prints[Positions(prints, f)[n]] == f
    ensures Increasing(Positions(prints, f))
    decreases |prints|
  {
    if prints != [] {
      PositionsAre(prints[..|prints| - 1], f);
    }
  }

  lemma {:induction false} PositionsCover<K>(prints: seq<K>, j: nat) returns (n: nat)
    requires j < |prints|
    ensures n < |Positions(prints, prints[j])| && Positions(prints, prints[j])[n] == j
    decreases |prints|
  {
    var last := |prints| - 1;
    if j < last {
      n := PositionsCover(prints[..last], j);
    } else {
      n := |Positions(prints[..last], prints[j])|;
    }
  }


  // ---------------------------------------------------------------- the bookkeeping

  datatype Book<K> = Book(used: seq<bool>, next: map<K, nat>, aside: map<K, seq<nat>>)

  /**
    Of the places where a fingerprint occurs, the first `next` have been looked at: each is used or set
    aside as a collision.  None of the others is used.
  */
  ghost predicate Tracked(used: seq<bool>, places: seq<nat>, next: nat, aside: seq<nat>) {
    && next <= |places|
    && (forall n | 0 <= n < |places| :: places[n] < |used|)
    && (forall n | next <= n < |places| :: !used[places[n]])
    && (forall m | 0 <= m < |aside| :: aside[m] in places[..next])
    && (forall n | 0 <= n < next :: used[places[n]] || places[n] in aside)
  }

  ghost predicate TrackedFor<K>(prints: seq<K>, book: Book<K>, f: K) {
    Tracked(book.used, Positions(prints, f), Lookup(book.next, f, 0), Lookup(book.aside, f, []))
  }

  ghost predicate AllTracked<K(!new)>(prints: seq<K>, book: Book<K>) {
    |book.used| == |prints| && forall f :: TrackedFor(prints, book, f)
  }

  lemma InitiallyTracked<K(!new)>(prints: seq<K>)
    ensures AllTracked(prints, Book(seq(|prints|, _ => false), map[], map[]))
  {
    var book := Book(seq(|prints|, _ => false), map[], map[]);
    forall f: K
      ensures TrackedFor(prints, book, f)
    {
      PositionsAre(prints, f);
    }
  }

  ghost predicate SameElsewhere<K(!new)>(book: Book<K>, later: Book<K>, key: K) {
    forall f | f != key ::
      Lookup(book.next, f, 0) == Lookup(later.next, f, 0) && Lookup(book.aside, f, []) == Lookup(later.aside, f, [])
  }

  /** Using a record changes the books of its own fingerprint only. */
  lemma OthersStayTracked<K(!new)>(prints: seq<K>, book: Book<K>, later: Book<K>, key: K, j: nat)
    requires AllTracked(prints, book) && SameElsewhere(book, later, key)
    requires later.used == book.used || (j < |prints| && prints[j] == key && later.used == book.used[j := true])
    requires TrackedFor(prints, later, key)
    ensures AllTracked(prints, later)
  {
    forall f | f != key
      ensures TrackedFor(prints, later, f)
    {
      assert TrackedFor(prints, book, f);
      PositionsAre(prints, f);
    }
  }

  /** A place set aside earlier may be used later. */
  lemma TrackAsideUse(used: seq<bool>, places: seq<nat>, next: nat, aside: seq<nat>, m: nat)
    requires Tracked(used, places, next, aside) && m < |aside| && aside[m] < |used| && Increasing(places)
    ensures Tracked(used[aside[m] := true], places, next, aside)
  {
    var j := aside[m];
    var at :| 0 <= at < next && places[..next][at] == j;
    forall n | next <= n < |places|
      ensures !used[j := true][places[n]]
    {
      assert places[at] < places[n];
    }
  }

  lemma AsideInRange(used: seq<bool>, places: seq<nat>, next: nat, aside: seq<nat>)
    requires Tracked(used, places, next, aside)
    ensures forall m | 0 <= m < |aside| :: aside[m] < |used| && aside[m] in places
  {
    forall m | 0 <= m < |aside|
      ensures aside[m] < |used| && aside[m] in places
    {
      assert aside[m] in places[..next];
      var n :| 0 <= n < next && places[..next][n] == aside[m];
    }
  }

  // ---------------------------------------------------------------- the loops

  ghost predicate Indexes<K(!new)>(candidates: map<K, seq<nat>>, prints: seq<K>) {
    forall f :: Lookup(candidates, f, []) == Positions(prints, f)
  }

  lemma IndexesAt<K(!new)>(candidates: map<K, seq<nat>>, prints: seq<K>, f: K)
    requires Indexes(candidates, prints)
    ensures Lookup(candidates, f, []) == Positions(prints, f)
  {
  }

  method CollectCandidates<K(==, !new)>(prints: seq<K>) returns (candidates: map<K, seq<nat>>)
    ensures Indexes(candidates, prints)
  {
    candidates := map[];
    for index := 0 to |prints|
      invariant Indexes(candidates, prints[..index])
    {
      var key := prints[index];
      candidates := candidates[key := Lookup(candidates, key, []) + [index]];
      assert prints[..index + 1][..index] == prints[..index];
    }
    assert prints[..|prints|] == prints;
  }

  /** Try the records set aside before. */
  method TryAside<T(==)>(record: T, right: seq<T>, used: seq<bool>, aside: seq<nat>) returns (found: bool, n: nat)
    requires |used| == |right| && forall m | 0 <= m < |aside| :: aside[m] < |right|
    ensures found ==> n < |aside| && !used[aside[n]] && right[aside[n]] == record
    ensures !found ==> forall m | 0 <= m < |aside| :: used[aside[m]] || right[aside[m]] != record
  {
    found, n := false, 0;
    while n < |aside|
      invariant n <= |aside|
      invariant forall m | 0 <= m < n :: used[aside[m]] || right[aside[m]] != record
    {
      if !used[aside[n]] && right[aside[n]] == record {
        found := true;
        return;
      }
      n := n + 1;
    }
  }

  /** Go on through the candidates; those with other bytes are set aside. */
  method TryNext<T(==)>(record: T, right: seq<T>, ghost used: seq<bool>, places: seq<nat>, next0: nat, aside0: seq<nat>)
    returns (found: bool, next: nat, aside: seq<nat>)
    requires |used| == |right| && Tracked(used, places, next0, aside0) && Increasing(places)
    requires forall m | 0 <= m < |aside0| :: aside0[m] < |right| && (used[aside0[m]] || right[aside0[m]] != record)
    ensures found ==> 0 < next <= |places| && !used[places[next - 1]] && right[places[next - 1]] == record
    ensures found ==> Tracked(used[places[next - 1] := true], places, next, aside)
    ensures !found ==> Tracked(used, places, next, aside)
    ensures !found ==> forall n | 0 <= n < |places| :: used[places[n]] || right[places[n]] != record
  {
    found, next, aside := false, next0, aside0;
    while next < |places|
      invariant Tracked(used, places, next, aside)
      invariant forall m | 0 <= m < |aside| :: aside[m] < |right| && (used[aside[m]] || right[aside[m]] != record)
    {
      assert places[..next + 1] == places[..next] + [places[next]];
      next := next + 1;
      if right[places[next - 1]] == record {
        found := true;
        return;
      }
      aside := aside + [places[next - 1]];
    }
  }

  method MatchOne<T(==), K(==, !new)>(record: T, key: K, right: seq<T>, prints: seq<K>, places: seq<nat>, book: Book<K>)
    returns (found: bool, later: Book<K>)
    requires |prints| == |right| && forall j | 0 <= j < |right| && right[j] == record :: prints[j] == key
    requires places == Positions(prints, key)
    requires AllTracked(prints, book)
    ensures AllTracked(prints, later)
    ensures found <==> record in Free(right, book.used)
    ensures Free(right, book.used) == Free(right, later.used) + (if found then multiset{record} else multiset{})
  {
    var mine, from := Lookup(book.aside, key, []), Lookup(book.next, key, 0);
    assert TrackedFor(prints, book, key);
    PositionsAre(prints, key);
    AsideInRange(book.used, places, from, mine);
    var n;
    found, n := TryAside(record, right, book.used, mine);
    if found {
      TrackAsideUse(book.used, places, from, mine, n);
      later := book.(used := book.used[mine[n] := true]);
      Took(record, key, right, prints, book, later, mine[n]);
      return;
    }
    var reached, left;
    found, reached, left := TryNext(record, right, book.used, places, from, mine);
    later := book.(next := book.next[key := reached], aside := book.aside[key := left]);
    if found {
      var j := places[reached - 1];
      later := later.(used := book.used[j := true]);
      Took(record, key, right, prints, book, later, j);
    } else {
      NothingFree(record, key, right, prints, book.used);
      OthersStayTracked(prints, book, later, key, 0);
    }
  }

  lemma Took<T, K(!new)>(record: T, key: K, right: seq<T>, prints: seq<K>, book: Book<K>, later: Book<K>, j: nat)
    requires |prints| == |right| && AllTracked(prints, book) && SameElsewhere(book, later, key)
    requires j < |right| && right[j] == record && prints[j] == key
    requires !book.used[j] && later.used == book.used[j := true]
    requires TrackedFor(prints, later, key)
    ensures AllTracked(prints, later)
    ensures record in Free(right, book.used)
    ensures Free(right, book.used) == Free(right, later.used) + multiset{record}
  {
    FreeUse(right, book.used, j);
    OthersStayTracked(prints, book, later, key, j);
  }

  lemma NothingFree<T, K>(record: T, key: K, right: seq<T>, prints: seq<K>, used: seq<bool>)
    requires |prints| == |right| == |used| && forall j | 0 <= j < |right| && right[j] == record :: prints[j] == key
    requires forall n | 0 <= n < |Positions(prints, key)| ::
      Positions(prints,
          key)[n] < |right| && (used[Positions(prints, key)[n]] || right[Positions(prints, key)[n]] != record)
    ensures record !in Free(right, used)
  {
    if record in Free(right, used) {
      var j := FreeFrom(right, used, record);
      var n := PositionsCover(prints, j);
      assert false;
    }
  }

  /** One more record on the left adds one to the intersection exactly when a copy is still free on the right. */
  lemma IntersectionStep<T>(left: multiset<T>, right: multiset<T>, free: multiset<T>, x: T)
    requires right == free + left * right
    ensures x in free ==> (left + multiset{x}) * right == left * right + multiset{x}
    ensures x !in free ==> (left + multiset{x}) * right == left * right
  {
    assert right[x] == free[x] + (left * right)[x];
  }

  lemma PrefixGrows<T>(s: seq<T>, i: nat)
    requires i < |s|
    ensures s[..i] + [s[i]] == s[..i + 1]
  {
  }

  /** After the first `done` records of the left file, what is not free on the right is the intersection so far. */
  ghost predicate Counted<T>(done: seq<T>, right: seq<T>, used: seq<bool>, shared: nat) {
    && |used| == |right|
    && multiset(right) == Free(right, used) + multiset(done) * multiset(right)
    && shared == |multiset(done) * multiset(right)|
  }

  lemma CountStart<T>(right: seq<T>, used: seq<bool>)
    requires |used| == |right| && forall j | 0 <= j < |used| :: !used[j]
    ensures Counted([], right, used, 0)
  {
    FreeAll(right, used);
    assert multiset{} * multiset(right) == multiset{};
  }

  lemma CountStep<T>(done: seq<T>, record: T, right: seq<T>, used: seq<bool>, later: seq<bool>, shared: nat,
                     found: bool)
    requires Counted(done, right, used, shared) && |later| == |right|
    requires found <==> record in Free(right, used)
    requires Free(right, used) == Free(right, later) + (if found then multiset{record} else multiset{})
    ensures Counted(done + [record], right, later, shared + (if found then 1 else 0))
  {
    IntersectionStep(multiset(done), multiset(right), Free(right, used), record);
    assert multiset(done + [record]) == multiset(done) + multiset{record};
  }

  /**
    The number of shared records is the size of the multiset intersection of the two record lists, whatever
    the fingerprint function does.
  */
  method SharedRecordCount<T(==), K(==, !new)>(key: T -> K, left: seq<T>, right: seq<T>) returns (shared: nat)
    ensures shared == |multiset(left) * multiset(right)|
  {
    var prints := seq(|right|, i requires 0 <= i < |right| => key(right[i]));
    var candidates := CollectCandidates(prints);
    var book := Book(seq(|prints|, _ => false), map[], map[]);
    shared := 0;
    CountStart(right, book.used);
    InitiallyTracked(prints);
    for i := 0 to |left|
      invariant AllTracked(prints, book)
      invariant Counted(left[..i], right, book.used, shared)
    {
      var fingerprint := key(left[i]);
      IndexesAt(candidates, prints, fingerprint);
      var found, later := MatchOne(left[i], fingerprint, right, prints, Lookup(candidates, fingerprint, []), book);
      CountStep(left[..i], left[i], right, book.used, later.used, shared, found);
      PrefixGrows(left, i);
      book := later;
      if found {
        shared := shared + 1;
      }
    }
    assert left[..|left|] == left;
  }

  /** The length of the longest common prefix of the two record lists. */
  method SharedPrefix<T(==), K(==)>(key: T -> K, left: seq<T>, right: seq<T>) returns (count: nat)
    ensures count <= |left| && count <= |right| && left[..count] == right[..count]
    ensures count < |left| && count < |right| ==> left[count] != right[count]
  {
    count := 0;
    while count < |left| && count < |right|
      invariant count <= |left| && count <= |right| && left[..count] == right[..count]
    {
      if key(left[count]) != key(right[count]) {
        break;
      }
      if left[count] != right[count] {
        break;
      }
      count := count + 1;
    }
  }
}
