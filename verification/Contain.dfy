/**
  Does one rollout occur inside another as a contiguous run of records?  Fingerprints (digest and size)
  drive the search, a byte comparison confirms each hit.  Nothing is assumed about digest collisions.
*/
module Contain {
  import opened Records
  import opened Kmp

  type Bytes = seq<Byte>

  const CAPTURE_LIMIT := 8 * 1024 * 1024
  const COMPARE_BUFFER := 1024 * 1024

  datatype Fingerprint = Fingerprint(digest: int, size: nat)
  datatype RecordInfo = RecordInfo(index: nat, start: nat, end: nat, fingerprint: Fingerprint)

  /** How records are digested and recognised; both are arbitrary functions of the bytes. */
  datatype Scanner = Scanner(digest: Bytes -> int, isSessionMeta: Bytes -> bool, ignoreSessionMeta: bool)
  {
    function Print(r: Bytes): Fingerprint { Fingerprint(digest(r), |r|) }

    /** The first record is left out when it is a session header short enough to be captured. */
    predicate IsHeader(r: Bytes) { ignoreSessionMeta && |r| <= CAPTURE_LIMIT && isSessionMeta(r) }

    function Skipped(rs: seq<Bytes>): nat { if rs != [] && IsHeader(rs[0]) then 1 else 0 }

    function Applicable(data: Bytes): seq<Bytes> {
      var rs := Split(data);
      rs[Skipped(rs)..]
    }
  }

  // ---------------------------------------------------------------- scanning

  /** Record `j` with its true position. */
  function Info(scanner: Scanner, rs: seq<Bytes>, j: nat): RecordInfo
    requires j < |rs|
  {
    RecordInfo(j, Offset(rs, j), Offset(rs, j) + |rs[j]|, scanner.Print(rs[j]))
  }

  /** `infos` lists the records of `rs` from number `k` on. */
  ghost predicate Describes(scanner: Scanner, rs: seq<Bytes>, k: nat, infos: seq<RecordInfo>) {
    |infos| + k == |rs| && forall i | 0 <= i < |infos| :: DescribedAt(scanner, rs, k, infos, i)
  }

  ghost predicate DescribedAt(scanner: Scanner, rs: seq<Bytes>, k: nat, infos: seq<RecordInfo>, i: nat)
    requires i < |infos| && |infos| + k == |rs|
  {
    infos[i] == Info(scanner, rs, i + k)
  }

  lemma InfoStays(scanner: Scanner, rs: seq<Bytes>, r: Bytes, j: nat)
    requires j <= |rs|
    ensures Info(scanner, rs + [r], j) ==
            if j < |rs| then Info(scanner, rs, j)
            else RecordInfo(j, Offset(rs, j), Offset(rs, j) + |r|, scanner.Print(r))
  {
    OffsetOfPrefix(rs, [r], j);
  }

  lemma DescribesAppend(scanner: Scanner, rs: seq<Bytes>, k: nat, infos: seq<RecordInfo>, r: Bytes, info: RecordInfo)
    requires Describes(scanner, rs, k, infos)
    requires info == RecordInfo(|rs|, Offset(rs, |rs|), Offset(rs, |rs|) + |r|, scanner.Print(r))
    ensures Describes(scanner, rs + [r], k, infos + [info])
  {
    forall i | 0 <= i < |infos| + 1
      ensures DescribedAt(scanner, rs + [r], k, infos + [info], i)
    {
      InfoStays(scanner, rs, r, i + k);
      assert i < |infos| ==> DescribedAt(scanner, rs, k, infos, i);
    }
  }

  /** Collect one record, fragment by fragment; the bytes are also captured while they fit. */
  method ReadRecord(data: Bytes, start: nat, buffer: nat)
    returns (offset: nat, hashed: Bytes, captured: bool, status: Status)
    requires start <= |data| && buffer > 0
    ensures status != BufferFull && ReadingFrom(data, start, offset, status)
    ensures hashed == data[start..offset]
    ensures captured <==> |hashed| <= CAPTURE_LIMIT
  {
    offset, hashed, captured, status := start, [], true, BufferFull;
    var capture: Bytes := [];
    while status == BufferFull
      invariant ReadingFrom(data, start, offset, status)
      invariant hashed == data[start..offset]
      invariant captured <==> |hashed| <= CAPTURE_LIMIT
      invariant captured ==> capture == hashed
      decreases status == BufferFull, |data| - offset
    {
      var (end, why) := ReadSlice(data, offset, buffer);
      var fragment := data[offset..end];
      ReadOn(data, start, offset, end, why);
      hashed := hashed + fragment;
      if captured {
        if |capture| + |fragment| <= CAPTURE_LIMIT {
          capture := capture + fragment;
        } else {
          capture, captured := [], false;
        }
      }
      offset, status := end, why;
    }
  }

  /** Reading in fragments of any buffer size gives the same records and the same positions. */
  method ScanRecords(scanner: Scanner, data: Bytes, buffer: nat) returns (infos: seq<RecordInfo>)
    requires buffer > 0
    ensures Describes(scanner, Split(data), scanner.Skipped(Split(data)), infos)
  {
    infos := [];
    var offset, recordIndex, status := 0, 0, Newline;
    ghost var seen: seq<Bytes>, k := [], 0;
    SeenStart(data);
    while status != EndOfFile
      invariant SeenTo(data, offset, seen) && recordIndex == |seen|
      invariant k == scanner.Skipped(seen) && Describes(scanner, seen, k, infos)
      invariant status == EndOfFile ==> offset == |data|
      decreases status != EndOfFile, |data| - offset
    {
      var start := offset;
      var record, captured;
      offset, record, captured, status := ReadRecord(data, start, buffer);
      if start == offset {
        break;
      }
      SeenMore(data, start, offset, status, seen);
      var skip := scanner.ignoreSessionMeta && recordIndex == 0 && captured && scanner.isSessionMeta(record);
      if !skip {
        var info := RecordInfo(recordIndex, start, offset, Fingerprint(scanner.digest(record), offset - start));
        DescribesAppend(scanner, seen, k, infos, record, info);
        infos := infos + [info];
      } else {
        k := 1;
      }
      seen := seen + [record];
      recordIndex := recordIndex + 1;
    }
    SeenEnd(data, seen);
  }

  // ---------------------------------------------------------------- comparing byte ranges

  method EqualRanges(left: Bytes, leftAt: nat, right: Bytes, rightAt: nat, size: nat) returns (equal: bool)
    requires leftAt + size <= |left| && rightAt + size <= |right|
    ensures equal <==> left[leftAt..leftAt + size] == right[rightAt..rightAt + size]
  {
    ghost var a, b := left[leftAt..leftAt + size], right[rightAt..rightAt + size];
    var remaining := size;
    while remaining > 0
      invariant 0 <= remaining <= size
      invariant a[..size - remaining] == b[..size - remaining]
    {
      var chunk := if remaining < COMPARE_BUFFER then remaining else COMPARE_BUFFER;
      var done := size - remaining;
      var x, y := left[leftAt + done..leftAt + done + chunk], right[rightAt + done..rightAt + done + chunk];
      SubSlice(left, leftAt, size, done, done + chunk);
      SubSlice(right, rightAt, size, done, done + chunk);
      if x != y {
        return false;
      }
      assert a[..done + chunk] == a[..done] + x && b[..done + chunk] == b[..done] + y;
      remaining := remaining - chunk;
    }
    assert a[..size] == a && b[..size] == b;
    return true;
  }

  // ---------------------------------------------------------------- runs of records

  /** The meaning of containment, in terms of record bytes only. */
  ghost predicate RunAt(needle: seq<Bytes>, hay: seq<Bytes>, i: int) {
    0 <= i && i + |needle| <= |hay| && hay[i..i + |needle|] == needle
  }

  ghost predicate FirstRunAt(needle: seq<Bytes>, hay: seq<Bytes>, i: int) {
    RunAt(needle, hay, i) && forall j | 0 <= j < i :: !RunAt(needle, hay, j)
  }

  /** No run of the needle ends at or before record `n`. */
  ghost predicate NoRunUpTo(needle: seq<Bytes>, hay: seq<Bytes>, n: int) {
    forall i | i + |needle| <= n :: !RunAt(needle, hay, i)
  }

  function Prints(scanner: Scanner, rs: seq<Bytes>): seq<Fingerprint> {
    seq(|rs|, i requires 0 <= i < |rs| => scanner.Print(rs[i]))
  }

  /** Equal bytes cut at equal lengths are equal records: collisions cannot hide in a confirmed hit. */
  lemma {:induction false} SameCutsSameRecords(a: seq<Bytes>, b: seq<Bytes>)
    requires |a| == |b| && forall i | 0 <= i < |a| :: |a[i]| == |b[i]|
    ensures |Join(a)| == |Join(b)|
    ensures Join(a) == Join(b) ==> a == b
    decreases |a|
  {
    if a != [] {
      SameCutsSameRecords(a[1..], b[1..]);
      assert a == [a[0]] + a[1..] && b == [b[0]] + b[1..];
      assert a[0] == Join(a)[..|a[0]|] && b[0] == Join(b)[..|b[0]|];
      assert Join(a[1..]) == Join(a)[|a[0]|..] && Join(b[1..]) == Join(b)[|b[0]|..];
    }
  }

  /** All fingerprints of the needle match the last ones before record `n`. */
  ghost predicate HitAt(scanner: Scanner, needle: seq<Bytes>, hay: seq<Bytes>, n: nat) {
    needle != [] && n <= |hay| && Suffix(Prints(scanner, needle), Prints(scanner, hay)[..n], |needle|)
  }

  /** A hit is a run exactly when the bytes agree. */
  lemma HitIsRun(scanner: Scanner, needle: seq<Bytes>, hay: seq<Bytes>, n: nat)
    requires HitAt(scanner, needle, hay, n)
    ensures |needle| <= n && |Join(hay[n - |needle|..n])| == |Join(needle)|
    ensures Join(hay[n - |needle|..n]) == Join(needle) <==> RunAt(needle, hay, n - |needle|)
  {
    var p, t := Prints(scanner, needle), Prints(scanner, hay)[..n];
    var window := hay[n - |needle|..n];
    forall i | 0 <= i < |needle|
      ensures |window[i]| == |needle[i]|
    {
      assert t[|t| - |p|..][i] == p[..|p|][i];
    }
    SameCutsSameRecords(window, needle);
  }

  lemma RunIsHit(scanner: Scanner, needle: seq<Bytes>, hay: seq<Bytes>, n: nat)
    requires needle != [] && |needle| <= n <= |hay| && RunAt(needle, hay, n - |needle|)
    ensures HitAt(scanner, needle, hay, n)
  {
    var p, t := Prints(scanner, needle), Prints(scanner, hay)[..n];
    forall i | 0 <= i < |p|
      ensures t[|t| - |p|..][i] == p[i]
    {
      assert hay[n - |needle|..n][i] == needle[i];
    }
  }

  // ---------------------------------------------------------------- the check

  datatype Verdict =
    | NothingToCompare
    | NotContained(records: nat, bytes: nat)
    | Contained(records: nat, bytes: nat, startRecord: int, endRecord: int, startByte: int, endByte: int)

  /** A file as its records, `k` of which are left out at the front. */
  ghost predicate Cut(data: Bytes, rs: seq<Bytes>, k: nat) {
    Join(rs) == data && k <= |rs|
  }

  /** The verdict in terms of the two record lists. */
  ghost predicate Reports(needle: seq<Bytes>, container: Bytes, rs: seq<Bytes>, k: nat, v: Verdict)
    requires k <= |rs|
  {
    match v
    case NothingToCompare => needle == []
    case NotContained(records, bytes) =>
      && needle != [] && records == |needle| && bytes == |Join(needle)|
      && forall i :: !RunAt(needle, rs[k..], i)
    case Contained(records, bytes, startRecord, endRecord, startByte, endByte) =>
      && needle != [] && records == |needle| && bytes == |Join(needle)|
      && FirstRunAt(needle, rs[k..], startRecord - k)
      && endRecord == startRecord + |needle| - 1
      && startRecord <= |rs| && startByte == Offset(rs, startRecord)
      && 0 <= startByte <= endByte <= |container|
      && container[startByte..endByte] == Join(needle)
  }

  /** The last `size` of the first `n` records behind the cut, as bytes of the file. */
  lemma WindowBytes(data: Bytes, rs: seq<Bytes>, k: nat, n: nat, size: nat)
    requires Cut(data, rs, k) && size <= n && n + k <= |rs|
    ensures var start, end := Offset(rs, n + k - size), Offset(rs, n + k);
            && start <= end <= |data| && data[start..end] == Join(rs[k..][n - size..n])
            && end - start == |Join(rs[k..][n - size..n])|
  {
    JoinSlice(rs, n + k - size, n + k);
    DropSlice(rs, k, n - size, n);
  }

  /** The byte range of a window of the needle's length. */
  lemma RangeOfWindow(needle: seq<Bytes>, container: Bytes, rs: seq<Bytes>, k: nat, n: nat, joined: Bytes)
    requires Cut(container, rs, k) && |needle| <= n && n + k <= |rs| && joined == Join(rs[k..][n - |needle|..n])
    requires |joined| == |Join(needle)|
    ensures var end, size := Offset(rs, n + k), |Join(needle)|;
            && size <= end <= |container| && end - size == Offset(rs, n + k - |needle|)
            && container[end - size..end] == joined
  {
    WindowBytes(container, rs, k, n, |needle|);
  }

  lemma HitBytes(scanner: Scanner, needle: seq<Bytes>, container: Bytes, rs: seq<Bytes>, k: nat, n: nat)
    requires Cut(container, rs, k) && HitAt(scanner, needle, rs[k..], n)
    ensures |needle| <= n && n + k <= |rs|
    ensures var end, size := Offset(rs, n + k), |Join(needle)|;
            && size <= end <= |container|
            && end - size == Offset(rs, n + k - |needle|)
            && (container[end - size..end] == Join(needle) <==> RunAt(needle, rs[k..], n - |needle|))
  {
    HitIsRun(scanner, needle, rs[k..], n);
    RangeOfWindow(needle, container, rs, k, n, Join(rs[k..][n - |needle|..n]));
  }

  /** A full match of fingerprints before record `n` is confirmed byte by byte. */
  method Confirm(scanner: Scanner, contained: Bytes, needleStart: nat, bytes: nat, container: Bytes, end: nat,
                 ghost needle: seq<Bytes>, ghost rs: seq<Bytes>, ghost k: nat, ghost n: nat) returns (exact: bool)
    requires Cut(container, rs, k) && HitAt(scanner, needle, rs[k..], n)
    requires bytes == |Join(needle)| && end == Offset(rs, n + k)
    requires needleStart + bytes <= |contained| && contained[needleStart..needleStart + bytes] == Join(needle)
    ensures bytes <= end <= |container| && n + k <= |rs| && |needle| <= n
    ensures exact <==> RunAt(needle, rs[k..], n - |needle|)
    ensures exact ==> end - bytes == Offset(rs, n + k - |needle|) && container[end - bytes..end] == Join(needle)
  {
    HitBytes(scanner, needle, container, rs, k, n);
    exact := EqualRanges(contained, needleStart, container, end - bytes, bytes);
  }

  /** Before record `n` the search has found nothing, and `matched` fingerprints are in step. */
  ghost predicate Undecided(scanner: Scanner, needle: seq<Bytes>, hay: seq<Bytes>, n: nat, matched: int) {
    && n <= |hay| && NoRunUpTo(needle, hay, n)
    && Longest(Prints(scanner, needle), Prints(scanner, hay)[..n], matched)
  }

  lemma NoHit(scanner: Scanner, needle: seq<Bytes>, hay: seq<Bytes>, n: nat, matched: nat)
    requires needle != [] && n < |hay| && NoRunUpTo(needle, hay, n)
    requires LongestUpTo(Prints(scanner, needle), Prints(scanner, hay)[..n + 1], matched, |needle|)
    requires matched < |needle|
    ensures Undecided(scanner, needle, hay, n + 1, matched)
  {
    if RunAt(needle, hay, n + 1 - |needle|) {
      RunIsHit(scanner, needle, hay, n + 1);
      assert false;
    }
    NoRunHere(needle, hay, n);
  }

  lemma FalseHit(scanner: Scanner, needle: seq<Bytes>, hay: seq<Bytes>, n: nat, entry: nat)
    requires n < |hay| && NoRunUpTo(needle, hay, n)
    requires HitAt(scanner, needle, hay, n + 1) && !RunAt(needle, hay, n + 1 - |needle|)
    requires Entry(Prints(scanner, needle), |needle| - 1, entry)
    ensures Undecided(scanner, needle, hay, n + 1, entry)
  {
    Restart(Prints(scanner, needle), Prints(scanner, hay)[..n + 1], entry);
    NoRunHere(needle, hay, n);
  }

  /** One record of the container: nothing found yet, or the answer. */
  method VisitRecord(scanner: Scanner, contained: Bytes, needleStart: nat, bytes: nat, prints: seq<Fingerprint>,
                     prefix: array<nat>,
                     container: Bytes, info: RecordInfo, matched: nat,
                     ghost needle: seq<Bytes>, ghost rs: seq<Bytes>, ghost k: nat, ghost n: nat)
    returns (found: bool, next: nat, v: Verdict)
    requires needle != [] && prints == Prints(scanner, needle) && bytes == |Join(needle)|
    requires needleStart + bytes <= |contained| && contained[needleStart..needleStart + bytes] == Join(needle)
    requires prefix.Length == |prints| && Table(prints, prefix[..])
    requires Cut(container, rs, k) && n + k < |rs|
    requires info.index == n + k && info.end == Offset(rs, n + k + 1) && info.fingerprint == scanner.Print(rs[k..][n])
    requires Undecided(scanner, needle, rs[k..], n, matched)
    ensures found ==> Reports(needle, container, rs, k, v)
    ensures !found ==> Undecided(scanner, needle, rs[k..], n + 1, next)
  {
    found, v := false, NothingToCompare;
    NextPrint(scanner, rs[k..], n);
    assert prefix[..|prints|] == prefix[..];
    next := Advance(prints, prefix, |prints|, matched, info.fingerprint, Prints(scanner, rs[k..])[..n]);
    if next == |prints| {
      found, next,
          v := VisitHit(scanner, contained, needleStart, bytes, prints, prefix, container, info, needle, rs, k, n);
    } else {
      NoHit(scanner, needle, rs[k..], n, next);
    }
  }

  /** All fingerprints match: report the run, or go on from the longest border. */
  method VisitHit(scanner: Scanner, contained: Bytes, needleStart: nat, bytes: nat, prints: seq<Fingerprint>,
                  prefix: array<nat>,
                  container: Bytes, info: RecordInfo,
                  ghost needle: seq<Bytes>, ghost rs: seq<Bytes>, ghost k: nat, ghost n: nat)
    returns (found: bool, next: nat, v: Verdict)
    requires needle != [] && prints == Prints(scanner, needle) && bytes == |Join(needle)|
    requires needleStart + bytes <= |contained| && contained[needleStart..needleStart + bytes] == Join(needle)
    requires prefix.Length == |prints| && Table(prints, prefix[..])
    requires Cut(container, rs, k) && n + k < |rs| && info.index == n + k && info.end == Offset(rs, n + k + 1)
    requires NoRunUpTo(needle, rs[k..], n) && HitAt(scanner, needle, rs[k..], n + 1)
    ensures found ==> Reports(needle, container, rs, k, v)
    ensures !found ==> Undecided(scanner, needle, rs[k..], n + 1, next)
  {
    found, next, v := false, 0, NothingToCompare;
    var exact := Confirm(scanner, contained, needleStart, bytes, container, info.end, needle, rs, k, n + 1);
    if exact {
      v := Contained(|prints|, bytes, info.index - |prints| + 1, info.index, info.end - bytes, info.end);
      RunReported(needle, container, rs, k, n + 1, info.end, v);
      found := true;
    } else {
      next := prefix[|prints| - 1];
      FalseHit(scanner, needle, rs[k..], n, next);
    }
  }

  /** Search the container's records for the fingerprints and confirm every hit. */
  method Search(scanner: Scanner, contained: Bytes, needleStart: nat, bytes: nat, prints: seq<Fingerprint>,
                container: Bytes, infos: seq<RecordInfo>,
                ghost needle: seq<Bytes>, ghost rs: seq<Bytes>, ghost k: nat) returns (v: Verdict)
    requires needle != [] && prints == Prints(scanner, needle) && bytes == |Join(needle)|
    requires needleStart + bytes <= |contained| && contained[needleStart..needleStart + bytes] == Join(needle)
    requires Cut(container, rs, k) && Describes(scanner, rs, k, infos)
    ensures Reports(needle, container, rs, k, v)
  {
    var prefix := BuildPrefixTable(prints);
    var matched := 0;
    var found := false;
    for n := 0 to |infos|
      invariant prefix.Length == |prints| && Table(prints, prefix[..])
      invariant Undecided(scanner, needle, rs[k..], n, matched)
    {
      assert DescribedAt(scanner, rs, k, infos, n);
      found, matched,
          v := VisitRecord(scanner, contained, needleStart, bytes, prints, prefix, container, infos[n], matched,
                                       needle, rs, k, n);
      if found {
        return;
      }
    }
    v := NotContained(|prints|, bytes);
    NoneReported(needle, container, rs, k, v);
  }

  lemma RunReported(needle: seq<Bytes>, container: Bytes, rs: seq<Bytes>, k: nat, n: nat, end: int, v: Verdict)
    requires needle != [] && k <= |rs| && NoRunUpTo(needle, rs[k..], n - 1) && RunAt(needle, rs[k..], n - |needle|)
    requires n + k <= |rs| && |needle| <= n && |Join(needle)| <= end <= |container|
    requires end - |Join(needle)| == Offset(rs, n + k - |needle|)
    requires container[end - |Join(needle)|..end] == Join(needle)
    requires v == Contained(|needle|, |Join(needle)|, n + k - |needle|, n + k - 1, end - |Join(needle)|, end)
    ensures Reports(needle, container, rs, k, v)
  {
  }

  lemma NoneReported(needle: seq<Bytes>, container: Bytes, rs: seq<Bytes>, k: nat, v: Verdict)
    requires needle != [] && k <= |rs| && NoRunUpTo(needle, rs[k..], |rs| - k)
    requires v == NotContained(|needle|, |Join(needle)|)
    ensures Reports(needle, container, rs, k, v)
  {
  }

  lemma NextPrint(scanner: Scanner, hay: seq<Bytes>, n: nat)
    requires n < |hay|
    ensures Prints(scanner, hay)[..n] + [scanner.Print(hay[n])] == Prints(scanner, hay)[..n + 1]
  {
  }

  lemma NoRunHere(needle: seq<Bytes>, hay: seq<Bytes>, n: nat)
    requires NoRunUpTo(needle, hay, n) && !RunAt(needle, hay, n + 1 - |needle|)
    ensures NoRunUpTo(needle, hay, n + 1)
  {
  }

  lemma WholeFile(scanner: Scanner, data: Bytes)
    ensures var rs := Split(data);
            var k := scanner.Skipped(rs);
            && Cut(data, rs, k)
            && Offset(rs, k) <= Offset(rs, |rs|) == |data|
            && data[Offset(rs, k)..|data|] == Join(scanner.Applicable(data))
  {
    var rs := Split(data);
    var k := scanner.Skipped(rs);
    JoinSplit(data);
    OffsetIsLength(rs, |rs|);
    assert rs[..|rs|] == rs;
    JoinSlice(rs, k, |rs|);
    assert rs[k..|rs|] == scanner.Applicable(data);
  }

  /**
    Containment is reported if and only if the applicable records of one file occur as a contiguous run
    in the other; the first such run is reported, with the right record numbers and byte range.
  */
  method Check(scanner: Scanner, contained: Bytes, container: Bytes, buffer: nat) returns (v: Verdict)
    requires buffer > 0
    ensures var rs := Split(container);
            Reports(scanner.Applicable(contained), container, rs, scanner.Skipped(rs), v)
  {
    var needleInfos := ScanRecords(scanner, contained, buffer);
    WholeFile(scanner, contained);
    if |needleInfos| == 0 {
      return NothingToCompare;
    }
    var prints := seq(|needleInfos|, i requires 0 <= i < |needleInfos| => needleInfos[i].fingerprint);
    SamePrints(scanner, Split(contained), scanner.Skipped(Split(contained)), needleInfos, prints);
    NeedleBytes(scanner, Split(contained), scanner.Skipped(Split(contained)), needleInfos);
    var needleStart := needleInfos[0].start;
    var bytes := needleInfos[|needleInfos| - 1].end - needleStart;
    var infos := ScanRecords(scanner, container, buffer);
    WholeFile(scanner, container);
    v := Search(scanner, contained, needleStart, bytes, prints, container, infos, scanner.Applicable(contained),
                Split(container), scanner.Skipped(Split(container)));
  }

  lemma NeedleBytes(scanner: Scanner, rs: seq<Bytes>, k: nat, infos: seq<RecordInfo>)
    requires Describes(scanner, rs, k, infos) && infos != []
    ensures infos[0].start == Offset(rs, k) && infos[|infos| - 1].end == Offset(rs, |rs|)
  {
    assert DescribedAt(scanner, rs, k, infos, 0) && DescribedAt(scanner, rs, k, infos, |infos| - 1);
  }

  lemma SamePrints(scanner: Scanner, rs: seq<Bytes>, k: nat, infos: seq<RecordInfo>, prints: seq<Fingerprint>)
    requires Describes(scanner, rs, k, infos) && |prints| == |infos|
    requires forall i | 0 <= i < |infos| :: prints[i] == infos[i].fingerprint
    ensures prints == Prints(scanner, rs[k..])
  {
    var hay := rs[k..];
    var all := Prints(scanner, hay);
    forall i | 0 <= i < |prints|
      ensures prints[i] == all[i]
    {
      assert DescribedAt(scanner, rs, k, infos, i);
      assert hay[i] == rs[i + k];
    }
    assert |prints| == |all|;
  }
}
