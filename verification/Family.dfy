/**
  Comparing two rollouts of one fork family.
*/
module Family {
  import opened Records
  import opened Contain
  import Shared = SharedRecords
  import opened Graph = SpawnGraph

  // ---------------------------------------------------------------- comparing two rollouts

  datatype Relation = Identical | LeftContained | RightContained | IndependentTails | SharedExactRecords | Unrelated

  datatype Comparison =
    | Incomparable
    | Changed
    | Comparison(graph: GraphRelation, relation: Relation, sharedPrefix: nat, sharedRecords: nat, leftInRight: bool,
                 rightInLeft: bool)

  /** The two rollouts as they are at one moment. */
  datatype Pair = Pair(left: Bytes, right: Bytes)

  ghost predicate Occurs(a: seq<Bytes>, b: seq<Bytes>) {
    exists i :: RunAt(a, b, i)
  }

  /** How two record lists are related, said without any search: the reference for `Compare`. */
  ghost function RelationOf(left: seq<Bytes>, right: seq<Bytes>): Relation
    requires left != [] && right != []
  {
    if left == right then Identical
    else if Occurs(left, right) then LeftContained
    else if Occurs(right, left) then RightContained
    else if left[0] == right[0] then IndependentTails
    else if exists r :: r in left && r in right then SharedExactRecords
    else Unrelated
  }

  lemma MutualContainmentIsEquality(a: seq<Bytes>, b: seq<Bytes>)
    ensures Occurs(a, b) && Occurs(b, a) <==> a == b
  {
    if Occurs(a, b) && Occurs(b, a) {
      var i :| RunAt(a, b, i);
      var j :| RunAt(b, a, j);
      assert b[i..i + |a|] == b;
    }
    if a == b {
      assert b[0..0 + |a|] == a;
      assert RunAt(a, b, 0) && RunAt(b, a, 0);
    }
  }

  /** A prefix that reaches the end of either list is a containment. */
  lemma WholePrefixIsContained(a: seq<Bytes>, b: seq<Bytes>, n: nat)
    requires n <= |a| && n <= |b| && a[..n] == b[..n]
    ensures n == |a| ==> Occurs(a, b)
    ensures n == |b| ==> Occurs(b, a)
  {
    if n == |a| {
      assert b[0..0 + |a|] == a;
      assert RunAt(a, b, 0);
    }
    if n == |b| {
      assert a[0..0 + |b|] == b;
      assert RunAt(b, a, 0);
    }
  }

  lemma SharedMeansCommon(a: seq<Bytes>, b: seq<Bytes>)
    ensures |multiset(a) * multiset(b)| > 0 <==> exists r :: r in a && r in b
  {
    var both := multiset(a) * multiset(b);
    if |both| > 0 {
      var r :| r in both;
      assert r in a && r in b;
    }
    if r :| r in a && r in b {
      assert r in both;
    }
  }

  /** The applicable records themselves, read off the scan. */
  method ApplicableRecords(scanner: Scanner, data: Bytes, buffer: nat) returns (records: seq<Bytes>)
    requires buffer > 0
    ensures records == scanner.Applicable(data)
  {
    var infos := ScanRecords(scanner, data, buffer);
    ghost var rs := Split(data);
    ghost var k := scanner.Skipped(rs);
    JoinSplit(data);
    records := [];
    for n := 0 to |infos|
      invariant records == rs[k..k + n]
    {
      ListedBytes(scanner, data, rs, k, infos, n);
      SliceGrows(rs, k, k + n);
      records := records + [data[infos[n].start..infos[n].end]];
    }
  }

  lemma ListedBytes(scanner: Scanner, data: Bytes, rs: seq<Bytes>, k: nat, infos: seq<RecordInfo>, n: nat)
    requires Join(rs) == data && Describes(scanner, rs, k, infos) && n < |infos|
    ensures infos[n].start <= infos[n].end <= |data| && data[infos[n].start..infos[n].end] == rs[k + n]
  {
    assert DescribedAt(scanner, rs, k, infos, n);
    RecordBytes(rs, n + k);
  }

  lemma SliceGrows(rs: seq<Bytes>, i: nat, j: nat)
    requires i <= j < |rs|
    ensures rs[i..j] + [rs[j]] == rs[i..j + 1]
  {
  }

  lemma RecordBytes(rs: seq<Bytes>, j: nat)
    requires j < |rs|
    ensures Offset(rs, j) <= Offset(rs, j + 1) <= |Join(rs)|
    ensures Join(rs)[Offset(rs, j)..Offset(rs, j + 1)] == rs[j]
  {
    JoinSlice(rs, j, j + 1);
    assert rs[j..j + 1] == [rs[j]];
    JoinOne(rs[j]);
  }

  function Classify(leftInRight: bool, rightInLeft: bool, sharedPrefix: nat, sharedRecords: nat): Relation {
    if leftInRight && rightInLeft then Identical
    else if leftInRight then LeftContained
    else if rightInLeft then RightContained
    else if sharedPrefix > 0 then IndependentTails
    else if sharedRecords > 0 then SharedExactRecords
    else Unrelated
  }

  lemma ClassifyIsRelation(left: seq<Bytes>, right: seq<Bytes>, prefix: nat)
    requires left != [] && right != []
    requires prefix <= |left| && prefix <= |right| && left[..prefix] == right[..prefix]
    requires prefix < |left| && prefix < |right| ==> left[prefix] != right[prefix]
    ensures Classify(Occurs(left, right), Occurs(right, left), prefix, |multiset(left) * multiset(right)|) ==
            RelationOf(left, right)
  {
    MutualContainmentIsEquality(left, right);
    SharedMeansCommon(left, right);
    if prefix > 0 {
      assert left[..prefix][0] == right[..prefix][0];
    }
  }

  /** Both verdicts of the containment check, as facts about the record lists. */
  lemma VerdictIsOccurs(needle: seq<Bytes>, container: Bytes, rs: seq<Bytes>, k: nat, v: Verdict)
    requires k <= |rs| && needle != [] && Reports(needle, container, rs, k, v)
    ensures v.Contained? <==> Occurs(needle, rs[k..])
  {
  }

  lemma BackDecides(forth: bool, back: bool, prefix: nat, shared: nat)
    ensures Classify(forth, back, prefix, shared) != Classify(forth, !back, prefix, shared)
  {
  }

  /**
    Compare two sessions.  The rollouts are scanned and counted (`now`), read again by the first containment check
    (`again`), checked for changes, and read once more by the second (`late`).  Changes up to the check are refused.
    The verdict is that of the scanned rollouts exactly when the last read gives the answer they would give.
  */
  method Compare(scanner: Scanner, leftId: Id, rightId: Id, edges: seq<Edge>, now: Pair, again: Pair, late: Pair,
                 buffer: nat)
    returns (c: Comparison)
    requires buffer > 0
    ensures var left, right := scanner.Applicable(now.left), scanner.Applicable(now.right);
            && (c.Comparison? <==>
                  && leftId != rightId && left != [] && right != [] && again == now
                  && scanner.Applicable(late.right) != [])
            && (c == Changed ==> again != now)
            && (c.Comparison? ==>
                  && Relates(c.graph, leftId, rightId, edges)
                  && (c.leftInRight <==> Occurs(left, right))
                  && (c.rightInLeft <==> Occurs(scanner.Applicable(late.right), scanner.Applicable(late.left)))
                  && (c.relation == RelationOf(left, right) <==> (c.rightInLeft <==> Occurs(right, left)))
                  && c.sharedRecords == |multiset(left) * multiset(right)|
                  && c.sharedPrefix <= |left| && c.sharedPrefix <= |right|
                  && left[..c.sharedPrefix] == right[..c.sharedPrefix]
                  && (c.sharedPrefix < |left| && c.sharedPrefix < |right| ==>
                        left[c.sharedPrefix] != right[c.sharedPrefix]))
            && (c.Comparison? && late == now && c.relation == IndependentTails ==>
                  0 < c.sharedPrefix < |left| && c.sharedPrefix < |right|)
  {
    if leftId == rightId {
      return Incomparable;
    }
    var left := ApplicableRecords(scanner, now.left, buffer);
    var right := ApplicableRecords(scanner, now.right, buffer);
    if |left| == 0 || |right| == 0 {
      return Incomparable;
    }
    var graph := RelationTo(leftId, rightId, edges);
    var key := r => scanner.Print(r);
    var prefix := Shared.SharedPrefix(key, left, right);
    var shared := Shared.SharedRecordCount(key, left, right);
    var forth := Check(scanner, again.left, again.right, buffer);
    if forth.NothingToCompare? {
      return Incomparable;
    }
    if again != now {
      return Changed;
    }
    VerdictIsOccurs(left, now.right, Split(now.right), scanner.Skipped(Split(now.right)), forth);
    var back := Check(scanner, late.right, late.left, buffer);
    if back.NothingToCompare? {
      return Incomparable;
    }
    VerdictIsOccurs(scanner.Applicable(late.right), late.left, Split(late.left), scanner.Skipped(Split(late.left)),
        back);
    ClassifyIsRelation(left, right, prefix);
    BackDecides(forth.Contained?, back.Contained?, prefix, shared);
    WholePrefixIsContained(left, right, prefix);
    var relation := Classify(forth.Contained?, back.Contained?, prefix, shared);
    return Comparison(graph, relation, prefix, shared, forth.Contained?, back.Contained?);
  }

  /** Two equal rollouts, one of which changes between the check for changes and the last read: not called identical. */
  method LateChangeMisleads(digest: Bytes -> int) returns (c: Comparison)
    ensures var scanner := Scanner(digest, r => false, true);
            var records := scanner.Applicable([NEWLINE]);
            records == [[NEWLINE]] && c.Comparison? && c.relation != Identical == RelationOf(records, records)
  {
    var scanner := Scanner(digest, r => false, true);
    var now, late := Pair([NEWLINE], [NEWLINE]), Pair([0, NEWLINE], [NEWLINE]);
    SplitStep([NEWLINE], []);
    SplitStep([0, NEWLINE], []);
    assert [NEWLINE] + [] == [NEWLINE] && [0, NEWLINE] + [] == [0, NEWLINE];
    c := Compare(scanner, 0, 1, [], now, now, late, 1);
    MutualContainmentIsEquality([[NEWLINE]], [[NEWLINE]]);
    assert !Occurs([[NEWLINE]], [[0, NEWLINE]]) by {
      assert forall i | RunAt([[NEWLINE]], [[0, NEWLINE]], i) :: [[0, NEWLINE]][i..i + 1][0] == [NEWLINE];
    }
  }
}
