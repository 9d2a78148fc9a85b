/**
  The content-defined chunker: bytes are appended to the current chunk, a 64-bit gear hash is rolled along,
  and the chunk is emitted at the first cut.  Arithmetic on the hash wraps around at 64 bits.
*/
module Cdc {
  import opened Records

  type Bytes = seq<Byte>

  datatype Options = Options(minBytes: int, averageBytes: int, maxBytes: int)

  const MAX_INT64: int := 0x7FFF_FFFF_FFFF_FFFF
  const TWO_TO_64: int := 0x1_0000_0000_0000_0000

  /** What the chunker works with: its bounds, how the hash rolls on, and the mask test. */
  datatype Gears = Gears(minBytes: nat, maxBytes: nat, roll: (nat, Byte) -> nat, hits: nat -> bool)
  {
    ghost predicate Valid() {
      0 < minBytes <= maxBytes
    }

    function Gear(chunk: Bytes): nat {
      if chunk == [] then 0 else roll(Gear(chunk[..|chunk| - 1]), chunk[|chunk| - 1])
    }

    predicate Hits(chunk: Bytes) {
      hits(Gear(chunk))
    }

    /** A chunk is cut when it is full, or long enough and the mask test hits. */
    predicate Cuts(chunk: Bytes) {
      |chunk| >= maxBytes || (|chunk| >= minBytes && Hits(chunk))
    }

    /** The chunks emitted while `data` is written after the pending bytes `chunk`. */
    function Emitted(chunk: Bytes, data: Bytes): seq<Bytes>
      decreases |data|
    {
      if data == [] then []
      else
        var longer := chunk + [data[0]];
        if Cuts(longer) then [longer] + Emitted([], data[1..]) else Emitted(longer, data[1..])
    }

    /** The bytes left pending afterwards. */
    function Pending(chunk: Bytes, data: Bytes): Bytes
      decreases |data|
    {
      if data == [] then chunk
      else
        var longer := chunk + [data[0]];
        Pending(if Cuts(longer) then [] else longer, data[1..])
    }

    // ------------------------------------------------------------ a reference that does not mention writes

    /** No nonempty prefix of `chunk` cuts, the whole of it included. */
    ghost predicate Uncut(chunk: Bytes) {
      forall n | 0 < n <= |chunk| :: !Cuts(chunk[..n])
    }

    /** `chunk` is cut at its end and nowhere before. */
    ghost predicate FirstCut(chunk: Bytes) {
      chunk != [] && Cuts(chunk) && Uncut(chunk[..|chunk| - 1])
    }

    /** No prefix of `chunk` of at least the minimum and less than `end` bytes hits the mask. */
    ghost predicate NoHitBelow(chunk: Bytes, end: nat)
      requires end <= |chunk| + 1
    {
      forall n | minBytes <= n < end :: !hits(Gear(chunk[..n]))
    }

    /** `chunk` is full or hits the mask, within the bounds, and nothing shorter hits it. */
    ghost predicate AtFirstHit(chunk: Bytes) {
      minBytes <= |chunk| <= maxBytes && (|chunk| == maxBytes || hits(Gear(chunk))) && NoHitBelow(chunk, |chunk|)
    }

    /** `chunk` is not full, and neither it nor anything shorter hits the mask. */
    ghost predicate Waiting(chunk: Bytes) {
      |chunk| < maxBytes && NoHitBelow(chunk, |chunk| + 1)
    }

    ghost predicate IsChunking(data: Bytes, chunks: seq<Bytes>, rest: Bytes) {
      && Join(chunks) + rest == data
      && (forall i | 0 <= i < |chunks| :: FirstCut(chunks[i]))
      && Uncut(rest)
    }
  }

  // ---------------------------------------------------------------- construction

  /** The step of the hash: shift left by one, add the table entry, drop what does not fit in 64 bits. */
  function Roll(table: Byte -> nat, gear: nat, value: Byte): nat {
    (2 * gear + table(value)) % TWO_TO_64
  }

  /** The gear hash of codexfold, for one gear table (any table) and one average size. */
  ghost predicate RollsWith(g: Gears, table: Byte -> nat, average: int) {
    && average > 0
    && (forall gear: nat, value :: g.roll(gear, value) == Roll(table, gear, value))
    && (forall gear: nat :: g.hits(gear) <==> gear % average == 0)
  }

  predicate IsPowerOfTwo(a: int) {
    a == 1 || (a > 1 && a % 2 == 0 && IsPowerOfTwo(a / 2))
  }

  datatype Made = Rejected | Made(gears: Gears, average: int)

  function OrDefault(value: int, default: int): int {
    if value <= 0 then default else value
  }

  /** Defaults and checks of the constructor. */
  method New(options: Options, table: Byte -> nat) returns (made: Made)
    ensures var least, average, most := OrDefault(options.minBytes, 64 * 1024),
                                        OrDefault(options.averageBytes, 256 * 1024),
                                        OrDefault(options.maxBytes, 1024 * 1024);
            && (made.Made? <==> least <= average <= most && IsPowerOfTwo(average))
            && (made.Made? ==>
                  && made.gears.Valid() && made.gears.minBytes == least && made.gears.maxBytes == most
                  && made.average == average
                  && RollsWith(made.gears, table, average))
  {
    var least, average, most := options.minBytes, options.averageBytes, options.maxBytes;
    if least <= 0 {
      least := 64 * 1024;
    }
    if average <= 0 {
      average := 256 * 1024;
    }
    if most <= 0 {
      most := 1024 * 1024;
    }
    if least > average || average > most {
      return Rejected;
    }
    if !IsPowerOfTwo(average) {
      return Rejected;
    }
    return Made(Gears(least, most, (gear, value) => Roll(table, gear, value), gear => gear % average == 0), average);
  }

  // ---------------------------------------------------------------- the chunker

  class Chunker {
    const gears: Gears
    var gear: nat
    var chunk: Bytes

    ghost predicate Valid()
      reads this
    {
      gears.Valid() && gear == gears.Gear(chunk) && gears.Uncut(chunk)
    }

    constructor (gears: Gears)
      requires gears.Valid()
      ensures Valid() && this.gears == gears && chunk == []
    {
      this.gears, this.gear, this.chunk := gears, 0, [];
    }

    /** Returns the chunks handed to the callback, in order. */
    method Write(data: Bytes) returns (emitted: seq<Bytes>)
      requires Valid()
      modifies this
      ensures Valid()
      ensures emitted == gears.Emitted(old(chunk), data)
      ensures chunk == gears.Pending(old(chunk), data)
      ensures forall i | 0 <= i < |emitted| :: gears.AtFirstHit(emitted[i])
      ensures gears.Waiting(chunk)
    {
      emitted := [];
      EmittedAtFirstHits(gears, chunk, data);
      for i := 0 to |data|
        invariant Valid()
        invariant emitted + gears.Emitted(chunk, data[i..]) == gears.Emitted(old(chunk), data)
        invariant gears.Pending(chunk, data[i..]) == gears.Pending(old(chunk), data)
      {
        var value := data[i];
        OneByte(gears, chunk, data, i);
        UncutGrows(gears, chunk, value);
        chunk := chunk + [value];
        gear := gears.roll(gear, value);
        var size := |chunk|;
        if size >= gears.maxBytes || (size >= gears.minBytes && gears.hits(gear)) {
          emitted := emitted + [chunk];
          chunk, gear := [], 0;
        }
      }
    }

    method Finish() returns (emitted: seq<Bytes>)
      requires Valid()
      modifies this
      ensures Valid() && chunk == []
      ensures emitted == if old(chunk) == [] then [] else [old(chunk)]
    {
      if |chunk| == 0 {
        return [];
      }
      emitted := [chunk];
      chunk, gear := [], 0;
    }
  }

  /** What one byte does to the hash, to the chunks and to the pending bytes. */
  lemma OneByte(g: Gears, chunk: Bytes, data: Bytes, i: nat)
    requires i < |data|
    ensures var longer := chunk + [data[i]];
            && g.Gear(longer) == g.roll(g.Gear(chunk), data[i])
            && g.Emitted(chunk, data[i..]) ==
                 (if g.Cuts(longer) then [longer] + g.Emitted([], data[i + 1..]) else g.Emitted(longer, data[i + 1..]))
            && g.Pending(chunk, data[i..]) == g.Pending(if g.Cuts(longer) then [] else longer, data[i + 1..])
  {
    assert data[i..][1..] == data[i + 1..];
    assert (chunk + [data[i]])[..|chunk|] == chunk;
  }

  // ---------------------------------------------------------------- splitting writes changes nothing

  lemma {:induction false} WritesCompose(g: Gears, chunk: Bytes, a: Bytes, b: Bytes)
    ensures g.Emitted(chunk, a + b) == g.Emitted(chunk, a) + g.Emitted(g.Pending(chunk, a), b)
    ensures g.Pending(chunk, a + b) == g.Pending(g.Pending(chunk, a), b)
    decreases |a|
  {
    if a == [] {
      assert a + b == b;
    } else {
      assert (a + b)[1..] == a[1..] + b;
      var longer := chunk + [a[0]];
      WritesCompose(g, if g.Cuts(longer) then [] else longer, a[1..], b);
    }
  }

  /** However the input is cut into writes, the chunks are those of one write. */
  function EmittedBy(g: Gears, chunk: Bytes, writes: seq<Bytes>): seq<Bytes>
    decreases |writes|
  {
    if writes == [] then [] else g.Emitted(chunk, writes[0]) + EmittedBy(g, g.Pending(chunk, writes[0]), writes[1..])
  }

  lemma {:induction false} SplitsDoNotMatter(g: Gears, chunk: Bytes, writes: seq<Bytes>)
    ensures EmittedBy(g, chunk, writes) == g.Emitted(chunk, Join(writes))
    decreases |writes|
  {
    if writes != [] {
      SplitsDoNotMatter(g, g.Pending(chunk, writes[0]), writes[1..]);
      WritesCompose(g, chunk, writes[0], Join(writes[1..]));
    }
  }

  // ---------------------------------------------------------------- the chunks are the reference chunking

  lemma {:induction false} NothingLost(g: Gears, chunk: Bytes, data: Bytes)
    ensures Join(g.Emitted(chunk, data)) + g.Pending(chunk, data) == chunk + data
    decreases |data|
  {
    if data != [] {
      var longer := chunk + [data[0]];
      assert data == [data[0]] + data[1..];
      if g.Cuts(longer) {
        NothingLost(g, [], data[1..]);
        JoinCons(longer, g.Emitted([], data[1..]));
        assert chunk + data == longer + ([] + data[1..]);
      } else {
        NothingLost(g, longer, data[1..]);
      }
    }
  }

  lemma UncutGrows(g: Gears, chunk: Bytes, x: Byte)
    requires g.Uncut(chunk)
    ensures !g.Cuts(chunk + [x]) ==> g.Uncut(chunk + [x])
    ensures g.Cuts(chunk + [x]) ==> g.FirstCut(chunk + [x])
  {
    var longer := chunk + [x];
    assert longer[..|chunk|] == chunk && longer[..|chunk| + 1] == longer;
    forall n | 0 < n <= |chunk|
      ensures longer[..n] == chunk[..n]
    {
    }
  }

  lemma {:induction false} EmittedAreFirstCuts(g: Gears, chunk: Bytes, data: Bytes)
    requires g.Uncut(chunk)
    ensures forall i | 0 <= i < |g.Emitted(chunk, data)| :: g.FirstCut(g.Emitted(chunk, data)[i])
    ensures g.Uncut(g.Pending(chunk, data))
    decreases |data|
  {
    if data != [] {
      var longer := chunk + [data[0]];
      UncutGrows(g, chunk, data[0]);
      EmittedAreFirstCuts(g, if g.Cuts(longer) then [] else longer, data[1..]);
    }
  }

  /** The two ways to say where chunks end: by the cut test, and by the mask and the bounds. */
  lemma WaitingIsUncut(g: Gears, c: Bytes)
    requires g.Valid()
    ensures g.Waiting(c) <==> g.Uncut(c)
  {
    if g.Uncut(c) {
      assert c[..|c|] == c;
      assert forall n | g.minBytes <= n < |c| + 1 :: !g.Cuts(c[..n]);
    }
    if g.Waiting(c) {
      forall n | 0 < n <= |c|
        ensures !g.Cuts(c[..n])
      {
        assert n >= g.minBytes ==> !g.hits(g.Gear(c[..n]));
      }
    }
  }

  lemma FirstCutIsFirstHit(g: Gears, c: Bytes)
    requires g.Valid()
    ensures g.FirstCut(c) <==> g.AtFirstHit(c)
  {
    if c != [] {
      var before := c[..|c| - 1];
      WaitingIsUncut(g, before);
      forall n | 0 <= n < |c|
        ensures before[..n] == c[..n]
      {
      }
      assert g.Waiting(before) <==> |before| < g.maxBytes && g.NoHitBelow(c, |c|);
    }
  }

  lemma EmittedAtFirstHits(g: Gears, chunk: Bytes, data: Bytes)
    requires g.Valid() && g.Uncut(chunk)
    ensures forall i | 0 <= i < |g.Emitted(chunk, data)| :: g.AtFirstHit(g.Emitted(chunk, data)[i])
    ensures g.Waiting(g.Pending(chunk, data))
  {
    EmittedAreFirstCuts(g, chunk, data);
    var chunks := g.Emitted(chunk, data);
    forall i | 0 <= i < |chunks|
      ensures g.AtFirstHit(chunks[i])
    {
      FirstCutIsFirstHit(g, chunks[i]);
    }
    WaitingIsUncut(g, g.Pending(chunk, data));
  }

  lemma WriteGivesChunking(g: Gears, data: Bytes)
    ensures g.IsChunking(data, g.Emitted([], data), g.Pending([], data))
  {
    NothingLost(g, [], data);
    EmittedAreFirstCuts(g, [], data);
    assert [] + data == data;
  }

  /** The boundaries are determined by the bytes alone. */
  lemma {:induction false} ChunkingIsUnique(g: Gears, data: Bytes, a: seq<Bytes>, restA: Bytes, b: seq<Bytes>,
                                            restB: Bytes)
    requires g.IsChunking(data, a, restA) && g.IsChunking(data, b, restB)
    ensures a == b && restA == restB
    decreases |a| + |b|
  {
    if a == [] {
      assert restA == data;
      if b != [] {
        HeadOfChunking(g, data, b, restB);
      } else {
        assert restB == data;
      }
    } else if b == [] {
      assert restB == data;
      HeadOfChunking(g, data, a, restA);
    } else {
      HeadOfChunking(g, data, a, restA);
      HeadOfChunking(g, data, b, restB);
      FirstCutsAgree(g, data, a[0], b[0]);
      ChunkingIsUnique(g, data[|a[0]|..], a[1..], restA, b[1..], restB);
      assert a == [a[0]] + a[1..] && b == [b[0]] + b[1..];
    }
  }

  lemma HeadOfChunking(g: Gears, data: Bytes, chunks: seq<Bytes>, rest: Bytes)
    requires g.IsChunking(data, chunks, rest) && chunks != []
    ensures |chunks[0]| <= |data| && chunks[0] == data[..|chunks[0]|] && g.FirstCut(chunks[0])
    ensures g.IsChunking(data[|chunks[0]|..], chunks[1..], rest)
    ensures !g.Uncut(data)
  {
    var head, tail := chunks[0], Join(chunks[1..]);
    assert data == head + (tail + rest);
    assert data[|head|..] == tail + rest;
    assert g.Cuts(data[..|head|]);
  }

  lemma FirstCutsAgree(g: Gears, data: Bytes, a: Bytes, b: Bytes)
    requires g.FirstCut(a) && g.FirstCut(b)
    requires |a| <= |data| && a == data[..|a|] && |b| <= |data| && b == data[..|b|]
    ensures a == b
  {
    NoEarlierCut(g, a, b);
    NoEarlierCut(g, b, a);
  }

  lemma NoEarlierCut(g: Gears, a: Bytes, b: Bytes)
    requires g.FirstCut(a) && a != [] && g.FirstCut(b)
    ensures !(|a| < |b| && a == b[..|a|])
  {
    var before := b[..|b| - 1];
    assert |a| < |b| ==> before[..|a|] == b[..|a|];
  }

  lemma UncutIsShort(g: Gears, c: Bytes)
    requires g.Valid() && g.Uncut(c)
    ensures |c| < g.maxBytes
  {
    assert c[..|c|] == c;
  }

  /** Every emitted chunk is between the bounds, and what is pending is below the maximum. */
  lemma ChunkSizes(g: Gears, data: Bytes)
    requires g.Valid()
    ensures forall i | 0 <= i < |g.Emitted([], data)| :: g.minBytes <= |g.Emitted([], data)[i]| <= g.maxBytes
    ensures |g.Pending([], data)| < g.maxBytes
  {
    EmittedAreFirstCuts(g, [], data);
    var chunks := g.Emitted([], data);
    forall i | 0 <= i < |chunks|
      ensures g.minBytes <= |chunks[i]| <= g.maxBytes
    {
      assert g.FirstCut(chunks[i]);
      UncutIsShort(g, chunks[i][..|chunks[i]| - 1]);
    }
    UncutIsShort(g, g.Pending([], data));
  }

  // ---------------------------------------------------------------- the mask test sees only the last bytes

  function Power(k: nat): (p: nat)
    ensures p > 0
  {
    if k == 0 then 1 else 2 * Power(k - 1)
  }

  lemma {:induction false} PowersMultiply(j: nat, k: nat)
    ensures Power(j + k) == Power(j) * Power(k)
    decreases j
  {
    if j > 0 {
      PowersMultiply(j - 1, k);
      Twice(Power(j - 1), Power(k));
    } else {
      assert Power(0) * Power(k) == Power(k);
    }
  }

  lemma Twice(a: nat, b: nat)
    ensures 2 * (a * b) == (2 * a) * b
  {
  }

  /** The exponent of a power of two. */
  function Exponent(a: int): (k: nat)
    requires IsPowerOfTwo(a)
    ensures Power(k) == a
    decreases a
  {
    if a == 1 then 0 else Exponent(a / 2) + 1
  }

  lemma {:induction false} PowerGrows(j: nat, k: nat)
    requires j <= k
    ensures Power(j) <= Power(k)
    decreases k
  {
    if j < k {
      PowerGrows(j, k - 1);
    }
  }

  lemma SquareOf(k: nat, p: nat)
    requires Power(k) == p
    ensures Power(k + k) == p * p
  {
    PowersMultiply(k, k);
  }

  lemma WordIsPower()
    ensures Power(64) == TWO_TO_64
  {
    SquareOf(4, 16);
    SquareOf(8, 0x100);
    SquareOf(16, 0x1_0000);
    SquareOf(32, 0x1_0000_0000);
  }

  /** The word size is a multiple of every power of two that fits in an int64. */
  lemma WordIsMultiple(k: nat) returns (j: nat)
    requires k <= 64
    ensures TWO_TO_64 == j * Power(k)
  {
    WordIsPower();
    PowersMultiply(64 - k, k);
    j := Power(64 - k);
  }

  /** One more equal byte: a difference of `m` times `p` becomes a multiple of twice `p`, also after wrapping. */
  lemma RollDifference(x: nat, y: nat, t: nat, p: nat, m: int, j: nat) returns (n: int)
    requires p > 0 && x == y + m * p && TWO_TO_64 == j * (2 * p)
    ensures (2 * x + t) % TWO_TO_64 == (2 * y + t) % TWO_TO_64 + n * (2 * p)
  {
    var a, b := (2 * x + t) / TWO_TO_64, (2 * y + t) / TWO_TO_64;
    n := m - j * (a - b);
    calc {
      (2 * x + t) % TWO_TO_64;
      2 * x + t - TWO_TO_64 * a;
      2 * y + 2 * (m * p) + t - TWO_TO_64 * a;
      { assert 2 * (m * p) == m * (2 * p); }
      2 * y + t - TWO_TO_64 * b + m * (2 * p) - TWO_TO_64 * (a - b);
      (2 * y + t) % TWO_TO_64 + m * (2 * p) - TWO_TO_64 * (a - b);
      { WordTimes(a - b, j, 2 * p); }
      (2 * y + t) % TWO_TO_64 + m * (2 * p) - (j * (a - b)) * (2 * p);
      { assert m * (2 * p) - (j * (a - b)) * (2 * p) == n * (2 * p); }
      (2 * y + t) % TWO_TO_64 + n * (2 * p);
    }
  }

  lemma WordTimes(c: int, j: nat, q: nat)
    requires TWO_TO_64 == j * q
    ensures TWO_TO_64 * c == (j * c) * q
  {
    assert (j * q) * c == (j * c) * q;
  }

  /** After a common tail of k bytes the two hashes differ by a multiple of 2 to the k. */
  lemma {:induction false} SameTailDifference(g: Gears, table: Byte -> nat, average: int, a: Bytes, b: Bytes,
                                              tail: Bytes)
    returns (m: int)
    requires RollsWith(g, table, average) && |tail| <= 64
    ensures g.Gear(a + tail) == g.Gear(b + tail) + m * Power(|tail|)
    decreases |tail|
  {
    if tail == [] {
      m := g.Gear(a + tail) - g.Gear(b + tail);
    } else {
      var last, before := tail[|tail| - 1], tail[..|tail| - 1];
      var e := SameTailDifference(g, table, average, a, b, before);
      var j := WordIsMultiple(|tail|);
      m := RollDifference(g.Gear(a + before), g.Gear(b + before), table(last), Power(|before|), e, j);
      GearOfTail(g, table, average, a, tail);
      GearOfTail(g, table, average, b, tail);
    }
  }

  lemma GearOfTail(g: Gears, table: Byte -> nat, average: int, a: Bytes, tail: Bytes)
    requires RollsWith(g, table, average) && tail != []
    ensures g.Gear(a + tail) == (2 * g.Gear(a + tail[..|tail| - 1]) + table(tail[|tail| - 1])) % TWO_TO_64
  {
    assert (a + tail)[..|a + tail| - 1] == a + tail[..|tail| - 1];
    assert g.roll(g.Gear(a + tail[..|tail| - 1]), tail[|tail| - 1]) == Roll(table, g.Gear(a + tail[..|tail| - 1]),
        tail[|tail| - 1]);
  }

  lemma MultipleKeepsRemainder(x: nat, y: nat, m: int, p: nat)
    requires p > 0 && x == y + m * p
    ensures x % p == 0 <==> y % p == 0
  {
    if x % p == 0 {
      assert y == p * (x / p) - m * p == (x / p - m) * p;
      RemainderOfMultiple(x / p - m, p);
    }
    if y % p == 0 {
      assert x == p * (y / p) + m * p == (y / p + m) * p;
      RemainderOfMultiple(y / p + m, p);
    }
  }

  lemma SmallMultiple(c: int, p: nat, r: int)
    requires r == c * p && 0 <= r < p
    ensures r == 0
  {
  }

  lemma RemainderOfMultiple(n: int, p: nat)
    requires p > 0
    ensures (n * p) % p == 0
  {
    var q, r := (n * p) / p, (n * p) % p;
    assert r == (n - q) * p;
    SmallMultiple(n - q, p, r);
  }

  /**
    Once a chunk holds k bytes, 2 to the k being the average size, the mask test depends on the last k bytes
    alone, although the hash wraps around at 64 bits.
  */
  lemma MaskSeesLastBytes(g: Gears, table: Byte -> nat, average: int, a: Bytes, b: Bytes)
    requires RollsWith(g, table, average) && IsPowerOfTwo(average) && average <= MAX_INT64
    requires var k := Exponent(average);
             |a| >= k && |b| >= k && a[|a| - k..] == b[|b| - k..]
    ensures g.Hits(a) <==> g.Hits(b)
  {
    var k := Exponent(average);
    if k > 64 {
      WordIsPower();
      PowerGrows(64, k);
    }
    var tail, beforeA, beforeB := a[|a| - k..], a[..|a| - k], b[..|b| - k];
    assert a == beforeA + tail && b == beforeB + tail;
    var m := SameTailDifference(g, table, average, beforeA, beforeB, tail);
    MultipleKeepsRemainder(g.Gear(a), g.Gear(b), m, average);
  }

  /** The test for a power of two is right. */
  lemma {:induction false} PowerOfTwoIff(a: int)
    ensures IsPowerOfTwo(a) <==> exists k: nat :: a == Power(k)
    decreases if a > 0 then a else 0
  {
    if IsPowerOfTwo(a) {
      assert a == Power(Exponent(a));
    } else if k: nat :| a == Power(k) {
      assert k > 0 by {
        assert Power(0) == 1;
      }
      assert a / 2 == Power(k - 1);
      PowerOfTwoIff(a / 2);
    }
  }

  // ---------------------------------------------------------------- the boundaries of codexfold

  /** The sum of the table entries, each weighted by how far its byte is from the end; nothing wraps around. */
  function Weighted(table: Byte -> nat, c: Bytes): nat {
    if c == [] then 0 else table(c[0]) * Power(|c| - 1) + Weighted(table, c[1..])
  }

  lemma {:induction false} WeightedGrows(table: Byte -> nat, c: Bytes, x: Byte)
    ensures Weighted(table, c + [x]) == 2 * Weighted(table, c) + table(x)
    decreases |c|
  {
    if c == [] {
      assert c + [x] == [x];
      assert table(x) * Power(0) == table(x);
    } else {
      assert (c + [x])[1..] == c[1..] + [x];
      WeightedGrows(table, c[1..], x);
      Twice(Power(|c| - 1), table(c[0]));
    }
  }

  lemma WrapDoubles(x: nat, t: nat)
    ensures (2 * (x % TWO_TO_64) + t) % TWO_TO_64 == (2 * x + t) % TWO_TO_64
  {
  }

  /** The rolled hash is that sum, taken at the word size. */
  lemma {:induction false} GearIsWeighted(g: Gears, table: Byte -> nat, average: int, c: Bytes)
    requires RollsWith(g, table, average)
    ensures g.Gear(c) == Weighted(table, c) % TWO_TO_64
    decreases |c|
  {
    if c != [] {
      var before, last := c[..|c| - 1], c[|c| - 1];
      GearIsWeighted(g, table, average, before);
      assert before + [last] == c;
      WeightedGrows(table, before, last);
      WrapDoubles(Weighted(table, before), table(last));
      assert g.roll(g.Gear(before), last) == Roll(table, g.Gear(before), last);
    }
  }

  /** The mask test asks whether the average size divides the sum. */
  lemma HitsIff(g: Gears, table: Byte -> nat, average: int, c: Bytes)
    requires RollsWith(g, table, average) && IsPowerOfTwo(average) && average <= MAX_INT64
    ensures g.hits(g.Gear(c)) <==> Weighted(table, c) % average == 0
  {
    var k, sum := Exponent(average), Weighted(table, c);
    if k > 64 {
      WordIsPower();
      PowerGrows(64, k);
    }
    GearIsWeighted(g, table, average, c);
    var j := WordIsMultiple(k);
    WordTimes(sum / TWO_TO_64, j, average);
    MultipleKeepsRemainder(sum, sum % TWO_TO_64, j * (sum / TWO_TO_64), average);
  }

  /** `c` without a length, from the minimum to below `end`, at which the average size divides the sum. */
  ghost predicate NoMultipleBelow(g: Gears, table: Byte -> nat, average: int, c: Bytes, end: nat)
    requires average > 0 && end <= |c| + 1
  {
    forall n | g.minBytes <= n < end :: Weighted(table, c[..n]) % average != 0
  }

  lemma NoHitIsNoMultiple(g: Gears, table: Byte -> nat, average: int, c: Bytes, end: nat)
    requires RollsWith(g, table, average) && IsPowerOfTwo(average) && average <= MAX_INT64 && end <= |c| + 1
    ensures g.NoHitBelow(c, end) <==> NoMultipleBelow(g, table, average, c, end)
  {
    forall n | g.minBytes <= n < end
      ensures g.hits(g.Gear(c[..n])) <==> Weighted(table, c[..n]) % average == 0
    {
      HitsIff(g, table, average, c[..n]);
    }
  }

  /**
    Where codexfold cuts, with nothing of its chunker in the statement: a chunk ends at the first length, from the
    minimum on, at which the average size divides the weighted sum of its bytes, or at the maximum.
  */
  lemma Boundaries(g: Gears, table: Byte -> nat, average: int, data: Bytes)
    requires g.Valid() && RollsWith(g, table, average) && IsPowerOfTwo(average) && average <= MAX_INT64
    ensures forall i | 0 <= i < |g.Emitted([], data)| ::
              var c := g.Emitted([], data)[i];
              && g.minBytes <= |c| <= g.maxBytes && (|c| == g.maxBytes || Weighted(table, c) % average == 0)
              && NoMultipleBelow(g, table, average, c, |c|)
    ensures var rest := g.Pending([], data);
            |rest| < g.maxBytes && NoMultipleBelow(g, table, average, rest, |rest| + 1)
  {
    var chunks, rest := g.Emitted([], data), g.Pending([], data);
    WaitingIsUncut(g, []);
    EmittedAtFirstHits(g, [], data);
    forall i | 0 <= i < |chunks|
      ensures |chunks[i]| == g.maxBytes || Weighted(table, chunks[i]) % average == 0
      ensures NoMultipleBelow(g, table, average, chunks[i], |chunks[i]|)
    {
      assert g.AtFirstHit(chunks[i]);
      HitsIff(g, table, average, chunks[i]);
      NoHitIsNoMultiple(g, table, average, chunks[i], |chunks[i]|);
    }
    NoHitIsNoMultiple(g, table, average, rest, |rest| + 1);
  }
}
