/**
  The prefix-table search used to look for a run of record fingerprints.  The table is filled in place.
*/
module Kmp {

  /** The first `k` elements of `p` are the last `k` of `t`. */
  ghost predicate Suffix<T>(p: seq<T>, t: seq<T>, k: int) {
    0 <= k <= |p| && k <= |t| && t[|t| - k..] == p[..k]
  }

  /** `q` is the longest such prefix among those of length at most `limit`. */
  ghost predicate LongestUpTo<T>(p: seq<T>, t: seq<T>, q: int, limit: int) {
    Suffix(p, t, q) && forall k | q < k <= limit :: !Suffix(p, t, k)
  }

  /** `q` is the longest such prefix of `p` shorter than `p` itself. */
  ghost predicate Longest<T>(p: seq<T>, t: seq<T>, q: int) {
    0 <= q < |p| && LongestUpTo(p, t, q, |p| - 1)
  }

  /** Entry `j` of the prefix table: the longest proper border of `p[..j + 1]`. */
  ghost predicate Entry<T>(p: seq<T>, j: int, q: int)
    requires 0 <= j < |p|
  {
    0 <= q <= j && LongestUpTo(p, p[..j + 1], q, j)
  }

  ghost predicate Table<T>(p: seq<T>, table: seq<nat>) {
    |table| <= |p| && forall j | 0 <= j < |table| :: Entry(p, j, table[j])
  }

  /** While falling back, every longer candidate has been seen to disagree with the next element. */
  ghost predicate Searching<T>(p: seq<T>, t: seq<T>, x: T, q: int) {
    && 0 <= q < |p|
    && Suffix(p, t, q)
    && forall k | q < k < |p| && Suffix(p, t, k) :: p[k] != x
  }

  lemma SuffixOfSuffix<T>(p: seq<T>, t: seq<T>, k: int, q: int)
    requires Suffix(p, t, q) && 0 <= k < q
    ensures Suffix(p, t, k) <==> Suffix(p, p[..q], k)
  {
    var tail := t[|t| - q..];
    assert tail == p[..q];
    assert tail[|tail| - k..] == t[|t| - k..];
  }

  /** One step back along the table loses no candidate. */
  lemma FallBack<T>(p: seq<T>, t: seq<T>, x: T, q: int, entry: int)
    requires Searching(p, t, x, q) && q > 0 && p[q] != x
    requires Entry(p, q - 1, entry)
    ensures Searching(p, t, x, entry)
  {
    SuffixOfSuffix(p, t, entry, q);
    forall k | entry < k < |p| && Suffix(p, t, k)
      ensures p[k] != x
    {
      if k < q {
        SuffixOfSuffix(p, t, k, q);
      }
    }
  }

  lemma SuffixGrows<T>(p: seq<T>, t: seq<T>, x: T, k: int)
    requires 0 < k <= |p|
    ensures Suffix(p, t + [x], k) <==> Suffix(p, t, k - 1) && p[k - 1] == x
  {
    if k <= |t| + 1 {
      var tail := (t + [x])[|t| + 1 - k..];
      assert tail == t[|t| - (k - 1)..] + [x];
      assert p[..k] == p[..k - 1] + [p[k - 1]];
      if tail == p[..k] {
        assert tail[k - 1] == x && tail[..k - 1] == t[|t| - (k - 1)..] && p[..k][..k - 1] == p[..k - 1];
      }
    }
  }

  /** The element is taken in: the new length is the longest of all, the whole of `p` included. */
  lemma TakeIn<T>(p: seq<T>, t: seq<T>, x: T, q: int)
    requires Searching(p, t, x, q) && (q == 0 || p[q] == x)
    ensures var next := if p[q] == x then q + 1 else q;
            LongestUpTo(p, t + [x], next, |p|)
  {
    if p[q] == x {
      SuffixGrows(p, t, x, q + 1);
    }
    forall k | (if p[q] == x then q + 1 else q) < k <= |p|
      ensures !Suffix(p, t + [x], k)
    {
      SuffixGrows(p, t, x, k);
    }
  }

  /** After a full match the search goes on from the longest proper border. */
  lemma Restart<T>(p: seq<T>, t: seq<T>, entry: int)
    requires p != [] && Suffix(p, t, |p|) && Entry(p, |p| - 1, entry)
    ensures Longest(p, t, entry)
  {
    assert p[..|p|] == p;
    SuffixOfSuffix(p, t, entry, |p|);
    forall k | entry < k < |p|
      ensures !Suffix(p, t, k)
    {
      SuffixOfSuffix(p, t, k, |p|);
    }
  }

  lemma BorderIsSuffix<T>(p: seq<T>, index: int, k: int)
    requires 0 < index <= |p| && 0 <= k < index
    ensures Suffix(p, p[1..index], k) <==> Suffix(p, p[..index], k)
  {
    assert p[1..index][|p[1..index]| - k..] == p[..index][index - k..];
  }

  /** Take the next element in, falling back along the first `n` entries of the table as far as needed. */
  method Advance<T(==)>(p: seq<T>, prefix: array<nat>, n: nat, matched: nat, x: T, ghost text: seq<T>)
    returns (next: nat)
    requires n <= prefix.Length && Table(p, prefix[..n]) && matched <= n
    requires Longest(p, text, matched)
    ensures next <= matched + 1 && LongestUpTo(p, text + [x], next, |p|)
  {
    next := matched;
    while next > 0 && p[next] != x
      invariant next <= matched && Searching(p, text, x, next)
      decreases next
    {
      assert prefix[..n][next - 1] == prefix[next - 1];
      FallBack(p, text, x, next, prefix[next - 1]);
      next := prefix[next - 1];
    }
    TakeIn(p, text, x, next);
    if p[next] == x {
      next := next + 1;
    }
  }

  method BuildPrefixTable<T(==)>(p: seq<T>) returns (prefix: array<nat>)
    ensures fresh(prefix)
    ensures prefix.Length == |p| && Table(p, prefix[..])
  {
    prefix := new nat[|p|](_ => 0);
    if p == [] {
      return;
    }
    FirstEntry(p);
    assert prefix[..1] == [0];
    var index, matched := 1, 0;
    while index < |p|
      invariant 1 <= index <= |p| && matched < index
      invariant Table(p, prefix[..index])
      invariant Longest(p, p[1..index], matched)
    {
      ghost var table := prefix[..index];
      matched := Advance(p, prefix, index, matched, p[index], p[1..index]);
      assert p[1..index] + [p[index]] == p[1..index + 1];
      EntryFromBorder(p, index, matched);
      prefix[index] := matched;
      assert prefix[..index + 1] == table + [matched];
      index := index + 1;
    }
    assert prefix[..] == prefix[..|p|];
  }

  lemma FirstEntry<T>(p: seq<T>)
    requires p != []
    ensures Entry(p, 0, 0) && Longest(p, p[1..1], 0)
  {
  }

  lemma EntryFromBorder<T>(p: seq<T>, index: int, q: int)
    requires 0 < index < |p| && 0 <= q <= index
    requires LongestUpTo(p, p[1..index + 1], q, |p|)
    ensures Entry(p, index, q)
  {
    BorderIsSuffix(p, index + 1, q);
    var whole := p[..index + 1];
    forall k | q < k <= index
      ensures !Suffix(p, whole, k)
    {
      BorderIsSuffix(p, index + 1, k);
    }
  }
}
