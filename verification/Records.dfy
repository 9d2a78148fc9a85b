/**
  Files as sequences of newline-terminated records, and the buffered reader that cuts them into
  fragments.  A record keeps its newline; the last one may lack it.
*/
module Records {

  /** Byte values; nothing depends on their range. */
  type Byte = int

  const NEWLINE: Byte := 10

  // ---------------------------------------------------------------- records

  /** Length of the first record of `data`. */
  function FirstLength(data: seq<Byte>): (n: nat)
    ensures n <= |data|
    ensures data != [] ==> n > 0
    ensures NEWLINE !in data[..n] || (data[n - 1] == NEWLINE && NEWLINE !in data[..n - 1])
    ensures n < |data| ==> data[n - 1] == NEWLINE
  {
    if data == [] then 0
    else if data[0] == NEWLINE then 1
    else
      var rest := FirstLength(data[1..]);
      assert forall k | 0 < k <= 1 + rest :: data[..k] == [data[0]] + data[1..][..k - 1];
      1 + rest
  }

  function Split(data: seq<Byte>): seq<seq<Byte>>
    decreases |data|
  {
    if data == [] then [] else [data[..FirstLength(data)]] + Split(data[FirstLength(data)..])
  }

  function Join(parts: seq<seq<Byte>>): seq<Byte> {
    if parts == [] then [] else parts[0] + Join(parts[1..])
  }

  /** Where record `j` starts. */
  function Offset(rs: seq<seq<Byte>>, j: nat): nat
    requires j <= |rs|
  {
    if j == 0 then 0 else Offset(rs, j - 1) + |rs[j - 1]|
  }

  lemma {:induction false} OffsetOfPrefix(rs: seq<seq<Byte>>, more: seq<seq<Byte>>, j: nat)
    requires j <= |rs|
    ensures Offset(rs + more, j) == Offset(rs, j)
    decreases j
  {
    if j > 0 {
      OffsetOfPrefix(rs, more, j - 1);
    }
  }

  lemma {:induction false} OffsetIsLength(rs: seq<seq<Byte>>, j: nat)
    requires j <= |rs|
    ensures Offset(rs, j) == |Join(rs[..j])|
    decreases j
  {
    if j > 0 {
      OffsetIsLength(rs, j - 1);
      assert rs[..j] == rs[..j - 1] + [rs[j - 1]];
      JoinAppend(rs[..j - 1], [rs[j - 1]]);
      JoinOne(rs[j - 1]);
    }
  }

  lemma MiddleOf(whole: seq<Byte>, a: seq<Byte>, b: seq<Byte>, c: seq<Byte>)
    requires whole == (a + b) + c
    ensures |a| + |b| <= |whole| && whole[|a|..|a| + |b|] == b
  {
  }

  lemma PrefixSplit(rs: seq<seq<Byte>>, i: nat, j: nat)
    requires i <= j <= |rs|
    ensures Join(rs[..j]) == Join(rs[..i]) + Join(rs[i..j])
  {
    assert rs[..j] == rs[..i] + rs[i..j];
    JoinAppend(rs[..i], rs[i..j]);
  }

  /** The bytes between two record boundaries are the records between them. */
  lemma JoinSlice(rs: seq<seq<Byte>>, i: nat, j: nat)
    requires i <= j <= |rs|
    ensures Offset(rs, i) <= Offset(rs, j) <= |Join(rs)|
    ensures Join(rs)[Offset(rs, i)..Offset(rs, j)] == Join(rs[i..j])
  {
    OffsetIsLength(rs, i);
    OffsetIsLength(rs, j);
    PrefixSplit(rs, i, j);
    assert Join(rs) == Join(rs[..j]) + Join(rs[j..]) by {
      assert rs == rs[..j] + rs[j..];
      JoinAppend(rs[..j], rs[j..]);
    }
    MiddleOf(Join(rs), Join(rs[..i]), Join(rs[i..j]), Join(rs[j..]));
  }

  /** A record: nonempty, with a newline only at its end. */
  predicate IsRecord(r: seq<Byte>) {
    r != [] && NEWLINE !in r[..|r| - 1]
  }

  /** Records in file order: only the last may lack its newline. */
  ghost predicate AreRecords(rs: seq<seq<Byte>>) {
    && (forall i | 0 <= i < |rs| :: IsRecord(rs[i]))
    && (forall i | 0 <= i < |rs| - 1 :: rs[i][|rs[i]| - 1] == NEWLINE)
  }

  lemma JoinCons(head: seq<Byte>, tail: seq<seq<Byte>>)
    ensures Join([head] + tail) == head + Join(tail)
  {
    assert ([head] + tail)[1..] == tail;
  }

  lemma {:induction false} JoinSplit(data: seq<Byte>)
    ensures Join(Split(data)) == data
    decreases |data|
  {
    if data != [] {
      var n := FirstLength(data);
      JoinSplit(data[n..]);
      JoinCons(data[..n], Split(data[n..]));
      Halves(data, n);
    }
  }

  lemma Halves(data: seq<Byte>, n: nat)
    requires n <= |data|
    ensures data[..n] + data[n..] == data
  {
  }

  lemma {:induction false} SplitGivesRecords(data: seq<Byte>)
    ensures AreRecords(Split(data))
    decreases |data|
  {
    if data != [] {
      var n := FirstLength(data);
      SplitGivesRecords(data[n..]);
      var head, tail := data[..n], Split(data[n..]);
      assert IsRecord(head) by {
        assert head[..|head| - 1] == data[..n - 1];
        assert forall x | x in data[..n - 1] :: x in data[..n];
      }
      assert n < |data| ==> head[|head| - 1] == NEWLINE;
      assert tail != [] ==> n < |data|;
      var all := Split(data);
      assert all == [head] + tail;
      forall i | 0 <= i < |all|
        ensures IsRecord(all[i])
      {
        assert i > 0 ==> all[i] == tail[i - 1];
      }
      forall i | 0 <= i < |all| - 1
        ensures all[i][|all[i]| - 1] == NEWLINE
      {
        assert i > 0 ==> all[i] == tail[i - 1];
      }
    }
  }

  lemma {:induction false} JoinAppend(a: seq<seq<Byte>>, b: seq<seq<Byte>>)
    ensures Join(a + b) == Join(a) + Join(b)
    decreases |a|
  {
    if a == [] {
      assert a + b == b;
    } else {
      assert (a + b)[1..] == a[1..] + b;
      JoinAppend(a[1..], b);
    }
  }

  lemma SubSlice<T>(s: seq<T>, at: nat, size: nat, i: nat, j: nat)
    requires at + size <= |s| && i <= j <= size
    ensures s[at..at + size][i..j] == s[at + i..at + j]
  {
    var a, b := s[at..at + size][i..j], s[at + i..at + j];
    assert |a| == |b|;
    forall k | 0 <= k < |a|
      ensures a[k] == b[k]
    {
      assert a[k] == s[at..at + size][i + k];
    }
  }

  lemma DropSlice<T>(s: seq<T>, k: nat, i: nat, j: nat)
    requires i <= j && k + j <= |s|
    ensures s[k..][i..j] == s[k + i..k + j]
  {
    assert s[k..] == s[k..k + (|s| - k)];
    SubSlice(s, k, |s| - k, i, j);
  }

  lemma JoinOne(a: seq<Byte>)
    ensures Join([a]) == a
  {
    assert [a][1..] == [];
  }

  /** Splitting off the first record. */
  lemma SplitStep(record: seq<Byte>, rest: seq<Byte>)
    requires IsRecord(record)
    requires record[|record| - 1] == NEWLINE || rest == []
    ensures Split(record + rest) == [record] + Split(rest)
  {
    FirstLengthIs(record, rest);
    assert (record + rest)[..|record|] == record && (record + rest)[|record|..] == rest;
  }

  lemma {:induction false} FirstLengthIs(record: seq<Byte>, rest: seq<Byte>)
    requires IsRecord(record)
    requires record[|record| - 1] == NEWLINE || rest == []
    ensures FirstLength(record + rest) == |record|
    decreases |record|
  {
    if |record| == 1 {
      if record[0] != NEWLINE {
        assert (record + rest)[1..] == [];
      }
    } else {
      assert record[0] == record[..|record| - 1][0];
      assert (record + rest)[1..] == record[1..] + rest;
      assert record[1..][..|record[1..]| - 1] == record[..|record| - 1][1..];
      FirstLengthIs(record[1..], rest);
    }
  }

  // ---------------------------------------------------------------- the buffered reader

  datatype Status = Newline | BufferFull | EndOfFile

  /** One call of ReadSlice at offset `at` with a buffer of `buffer` bytes: the fragment's end, and why it ended. */
  function ReadSlice(data: seq<Byte>, at: nat, buffer: nat): (r: (nat, Status))
    requires at <= |data| && buffer > 0
    ensures at <= r.0 <= |data|
    ensures r.1 == Newline ==> at < r.0 && data[r.0 - 1] == NEWLINE && NEWLINE !in data[at..r.0 - 1]
    ensures r.1 != Newline ==> NEWLINE !in data[at..r.0]
    ensures r.1 == BufferFull ==> r.0 == at + buffer
    ensures r.1 == EndOfFile ==> r.0 == |data| && |data| - at < buffer
  {
    var n := FirstLength(data[at..]);
    if n > 0 && n <= buffer && data[at + n - 1] == NEWLINE then
      assert data[at..][..n - 1] == data[at..at + n - 1];
      assert data[at..][n - 1] == data[at + n - 1];
      assert NEWLINE in data[at..][..n] by { assert data[at..][..n][n - 1] == NEWLINE; }
      (at + n, Newline)
    else if |data| - at >= buffer then
      assert NEWLINE !in data[at..at + buffer] by {
        NoNewlineBefore(data[at..], buffer);
        assert data[at..][..buffer] == data[at..at + buffer];
      }
      (at + buffer, BufferFull)
    else
      assert NEWLINE !in data[at..] by {
        NoNewlineBefore(data[at..], |data| - at);
        assert data[at..][..|data| - at] == data[at..];
      }
      assert data[at..] == data[at..|data|];
      (|data|, EndOfFile)
  }

  lemma NoNewlineBefore(data: seq<Byte>, k: nat)
    requires k <= |data|
    requires var n := FirstLength(data); !(n > 0 && n <= k && data[n - 1] == NEWLINE)
    ensures NEWLINE !in data[..k]
  {
  }

  /** A record is complete: the rest of the file splits on its own. */
  lemma CompleteRecord(data: seq<Byte>, start: nat, end: nat)
    requires start < end <= |data| && NEWLINE !in data[start..end - 1]
    requires data[end - 1] == NEWLINE || end == |data|
    ensures Split(data[start..]) == [data[start..end]] + Split(data[end..])
  {
    var record, rest := data[start..end], data[end..];
    assert record[..|record| - 1] == data[start..end - 1];
    assert data[start..] == record + rest;
    SplitStep(record, rest);
  }

  /** Where the fragments read so far stand relative to the record that started at `start`. */
  ghost predicate ReadingFrom(data: seq<Byte>, start: nat, offset: nat, status: Status) {
    && start <= offset <= |data|
    && (status == Newline ==> start < offset && data[offset - 1] == NEWLINE && NEWLINE !in data[start..offset - 1])
    && (status != Newline ==> NEWLINE !in data[start..offset])
    && (status == EndOfFile ==> offset == |data|)
  }

  lemma ReadOn(data: seq<Byte>, start: nat, offset: nat, end: nat, status: Status)
    requires ReadingFrom(data, start, offset, BufferFull) && ReadingFrom(data, offset, end, status)
    ensures ReadingFrom(data, start, end, status)
    ensures data[start..offset] + data[offset..end] == data[start..end]
  {
    assert data[start..offset] + data[offset..end] == data[start..end];
    if status == Newline {
      assert data[start..offset] + data[offset..end - 1] == data[start..end - 1];
    }
  }

  /** `seen` are the records before `offset`. */
  ghost predicate SeenTo(data: seq<Byte>, offset: nat, seen: seq<seq<Byte>>) {
    && offset <= |data|
    && Split(data) == seen + Split(data[offset..])
    && Offset(seen, |seen|) == offset
  }

  lemma SeenStart(data: seq<Byte>)
    ensures SeenTo(data, 0, [])
  {
    assert data[0..] == data;
    assert [] + Split(data) == Split(data);
  }

  lemma SeenEnd(data: seq<Byte>, seen: seq<seq<Byte>>)
    requires SeenTo(data, |data|, seen)
    ensures Split(data) == seen
  {
    assert data[|data|..] == [];
    assert seen + [] == seen;
  }

  lemma SeenMore(data: seq<Byte>, start: nat, end: nat, status: Status, seen: seq<seq<Byte>>)
    requires SeenTo(data, start, seen)
    requires ReadingFrom(data, start, end, status) && status != BufferFull && start < end
    ensures SeenTo(data, end, seen + [data[start..end]])
  {
    assert NEWLINE !in data[start..end - 1] by {
      assert forall x | x in data[start..end - 1] :: x in data[start..end];
    }
    CompleteRecord(data, start, end);
    Regroup(seen, data[start..end], Split(data[end..]));
    OffsetOfPrefix(seen, [data[start..end]], |seen|);
  }

  lemma Regroup(seen: seq<seq<Byte>>, record: seq<Byte>, rest: seq<seq<Byte>>)
    ensures seen + ([record] + rest) == (seen + [record]) + rest
  {
  }
}
