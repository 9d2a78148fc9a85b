/**
  What folding a rollout means, line by line and without any read buffer: every line is cut into parts (large
  string fields, whole duplicate records, content-defined chunks of the rest).
*/
module FoldSpec {
  import opened Common
  import opened Records
  import opened Cdc

  datatype Kind = Residual | Field | Record

  datatype Part = Part(kind: Kind, path: nat, data: Bytes)

  datatype Span = Span(path: nat, start: nat, end: nat)

  /**
    The settings of a fold.  `spans` finds the large string fields of a JSON line (None: not valid JSON).
    `duplicate` asks the record index about a line that reaches the record threshold.  `worth` is the storage
    estimate: it may look at the parts stored so far and at the lines already priced.
  */
  datatype Settings = Settings(
    opaqueBytes: bool,
    maxLine: nat,
    gears: Gears,
    spans: Bytes -> Option<seq<Span>>,
    duplicate: Bytes -> bool,
    worth: (seq<Part>, seq<Bytes>, Bytes) -> bool)
  {
    ghost predicate Valid() {
      gears.Valid() && forall line :: spans(line).Some? ==> InOrder(spans(line).value, |line|)
    }
  }

  /** Spans are in range, in order and disjoint. */
  ghost predicate InOrder(spans: seq<Span>, length: nat) {
    && (forall i | 0 <= i < |spans| :: spans[i].start <= spans[i].end <= length)
    && (forall i, j | 0 <= i < j < |spans| :: spans[i].end <= spans[j].start)
  }

  /** What a fold has done so far. */
  datatype State = State(parts: seq<Part>, chunk: Bytes, priced: seq<Bytes>, oversized: nat, invalid: nat)

  const EMPTY := State([], [], [], 0, 0)

  // ---------------------------------------------------------------- the specification: line by line, no buffers

  function Residuals(chunks: seq<Bytes>): seq<Part> {
    seq(|chunks|, i requires 0 <= i < |chunks| => Part(Residual, 0, chunks[i]))
  }

  function Append(s: State, part: Part): State {
    if part.data == [] then s else s.(parts := s.parts + [part])
  }

  function Write(f: Settings, s: State, data: Bytes): State {
    s.(parts := s.parts + Residuals(f.gears.Emitted(s.chunk, data)), chunk := f.gears.Pending(s.chunk, data))
  }

  function Flush(s: State): State {
    if s.chunk == [] then s else s.(parts := s.parts + [Part(Residual, 0, s.chunk)], chunk := [])
  }

  /** Spans `i` onwards, from byte `cursor` of the line. */
  function CutFields(f: Settings, s: State, line: Bytes, spans: seq<Span>, i: nat, cursor: nat): State
    requires InOrder(spans, |line|) && i <= |spans| && cursor <= |line|
    requires i < |spans| ==> cursor <= spans[i].start
    decreases |spans| - i
  {
    if i == |spans| then Write(f, s, line[cursor..])
    else
      var span := spans[i];
      var before := Flush(Write(f, s, line[cursor..span.start]));
      CutFields(f, Append(before, Part(Field, span.path, line[span.start..span.end])), line, spans, i + 1, span.end)
  }

  function CutLine(f: Settings, s: State, line: Bytes): State
    requires f.Valid()
  {
    match f.spans(line)
    case None => Write(f, s.(invalid := s.invalid + 1), line)
    case Some(spans) => CutFields(f, s, line, spans, 0, 0)
  }

  /** The parts a line would give if it stood alone. */
  function Components(f: Settings, line: Bytes): seq<Part>
    requires f.Valid()
  {
    Flush(CutLine(f, EMPTY, line)).parts
  }

  /** A duplicate record is kept whole when that is worth it. */
  function ProcessLine(f: Settings, s: State, line: Bytes): State
    requires f.Valid()
  {
    if f.duplicate(line) then
      var priced := s.(priced := s.priced + [line]);
      if |Components(f, line)| > 1 && f.worth(s.parts, s.priced, line) then Append(Flush(priced), Part(Record, 0, line))
      else CutLine(f, priced, line)
    else CutLine(f, s, line)
  }

  /** A line too long for JSON is chunked as it comes. */
  function TakeLine(f: Settings, s: State, line: Bytes): State
    requires f.Valid()
  {
    if f.opaqueBytes then Write(f, s, line)
    else if |line| > f.maxLine then Write(f, s.(oversized := s.oversized + 1), line)
    else ProcessLine(f, s, line)
  }

  function TakeLines(f: Settings, lines: seq<Bytes>): State
    requires f.Valid()
    decreases |lines|
  {
    if lines == [] then EMPTY else TakeLine(f, TakeLines(f, lines[..|lines| - 1]), lines[|lines| - 1])
  }

  function FoldOf(f: Settings, data: Bytes): State
    requires f.Valid()
  {
    Flush(TakeLines(f, Split(data)))
  }

  // ---------------------------------------------------------------- the parts make up the source

  function Data(parts: seq<Part>): seq<Bytes> {
    seq(|parts|, i requires 0 <= i < |parts| => parts[i].data)
  }

  /** The bytes taken in so far: those in parts, then those pending in the chunker. */
  function Content(s: State): Bytes {
    Join(Data(s.parts)) + s.chunk
  }

  lemma JoinParts(parts: seq<Part>, more: seq<Part>)
    ensures Join(Data(parts + more)) == Join(Data(parts)) + Join(Data(more))
  {
    assert Data(parts + more) == Data(parts) + Data(more);
    JoinAppend(Data(parts), Data(more));
  }

  lemma OnePart(part: Part)
    ensures Join(Data([part])) == part.data
  {
    assert Data([part]) == [part.data];
    JoinOne(part.data);
  }

  lemma WriteContent(f: Settings, s: State, data: Bytes)
    ensures Content(Write(f, s, data)) == Content(s) + data
  {
    var chunks := f.gears.Emitted(s.chunk, data);
    JoinParts(s.parts, Residuals(chunks));
    assert Data(Residuals(chunks)) == chunks;
    NothingLost(f.gears, s.chunk, data);
    Regroup(Join(Data(s.parts)), Join(chunks), f.gears.Pending(s.chunk, data));
    Regroup(Join(Data(s.parts)), s.chunk, data);
  }

  lemma Regroup(a: Bytes, b: Bytes, c: Bytes)
    ensures (a + b) + c == a + (b + c)
  {
  }

  lemma FlushContent(s: State)
    ensures Content(Flush(s)) == Content(s) && Flush(s).chunk == []
  {
    JoinParts(s.parts, [Part(Residual, 0, s.chunk)]);
    OnePart(Part(Residual, 0, s.chunk));
  }

  lemma AppendContent(s: State, part: Part)
    requires s.chunk == []
    ensures Content(Append(s, part)) == Content(s) + part.data && Append(s, part).chunk == []
  {
    JoinParts(s.parts, [part]);
    OnePart(part);
  }

  lemma {:induction false} CutFieldsContent(f: Settings, s: State, line: Bytes, spans: seq<Span>, i: nat, cursor: nat)
    requires InOrder(spans, |line|) && i <= |spans| && cursor <= |line|
    requires i < |spans| ==> cursor <= spans[i].start
    ensures Content(CutFields(f, s, line, spans, i, cursor)) == Content(s) + line[cursor..]
    decreases |spans| - i
  {
    if i == |spans| {
      WriteContent(f, s, line[cursor..]);
    } else {
      var span := spans[i];
      WriteContent(f, s, line[cursor..span.start]);
      var written := Write(f, s, line[cursor..span.start]);
      FlushContent(written);
      var field := Part(Field, span.path, line[span.start..span.end]);
      AppendContent(Flush(written), field);
      CutFieldsContent(f, Append(Flush(written), field), line, spans, i + 1, span.end);
      ThreePieces(line, cursor, span.start, span.end);
    }
  }

  lemma ThreePieces(line: Bytes, a: nat, b: nat, c: nat)
    requires a <= b <= c <= |line|
    ensures line[a..b] + line[b..c] + line[c..] == line[a..]
  {
  }

  lemma CutLineContent(f: Settings, s: State, line: Bytes)
    requires f.Valid()
    ensures Content(CutLine(f, s, line)) == Content(s) + line
  {
    match f.spans(line)
    case None => WriteContent(f, s.(invalid := s.invalid + 1), line);
    case Some(spans) =>
      CutFieldsContent(f, s, line, spans, 0, 0);
      assert line[0..] == line;
  }

  /** Planning a record's components covers the record exactly. */
  lemma ComponentsContent(f: Settings, line: Bytes)
    requires f.Valid()
    ensures Join(Data(Components(f, line))) == line
  {
    CutLineContent(f, EMPTY, line);
    FlushContent(CutLine(f, EMPTY, line));
    assert Content(EMPTY) == [] && [] + line == line;
    assert Join(Data(Components(f, line))) + [] == line;
  }

  lemma TakeLineContent(f: Settings, s: State, line: Bytes)
    requires f.Valid()
    ensures Content(TakeLine(f, s, line)) == Content(s) + line
  {
    if f.opaqueBytes {
      WriteContent(f, s, line);
    } else if |line| > f.maxLine {
      WriteContent(f, s.(oversized := s.oversized + 1), line);
    } else {
      var priced := s.(priced := s.priced + [line]);
      CutLineContent(f, s, line);
      CutLineContent(f, priced, line);
      FlushContent(priced);
      AppendContent(Flush(priced), Part(Record, 0, line));
    }
  }

  lemma {:induction false} TakeLinesContent(f: Settings, lines: seq<Bytes>)
    requires f.Valid()
    ensures Content(TakeLines(f, lines)) == Join(lines)
    decreases |lines|
  {
    if lines != [] {
      var n := |lines| - 1;
      TakeLinesContent(f, lines[..n]);
      TakeLineContent(f, TakeLines(f, lines[..n]), lines[n]);
      assert lines == lines[..n] + [lines[n]];
      JoinAppend(lines[..n], [lines[n]]);
      JoinOne(lines[n]);
    }
  }

  /** The parts of a fold concatenate to the source: the segmentation check can never fail. */
  lemma PartsAreTheSource(f: Settings, data: Bytes)
    requires f.Valid()
    ensures Join(Data(FoldOf(f, data).parts)) == data
  {
    var lines := Split(data);
    TakeLinesContent(f, lines);
    JoinSplit(data);
    FlushContent(TakeLines(f, lines));
  }

  /** Lines counted as oversized are those longer than the limit. */
  function CountLong(lines: seq<Bytes>, limit: nat): nat
    decreases |lines|
  {
    if lines == [] then 0 else CountLong(lines[..|lines| - 1], limit) + (if |lines[|lines| - 1]| > limit then 1 else 0)
  }

  lemma {:induction false} CutFieldsKeepsCounts(f: Settings, s: State, line: Bytes, spans: seq<Span>, i: nat,
                                                cursor: nat)
    requires InOrder(spans, |line|) && i <= |spans| && cursor <= |line|
    requires i < |spans| ==> cursor <= spans[i].start
    ensures CutFields(f, s, line, spans, i, cursor).oversized == s.oversized
    decreases |spans| - i
  {
    if i < |spans| {
      var before := Flush(Write(f, s, line[cursor..spans[i].start]));
      var next := Append(before, Part(Field, spans[i].path, line[spans[i].start..spans[i].end]));
      CutFieldsKeepsCounts(f, next, line, spans, i + 1, spans[i].end);
    }
  }

  lemma {:induction false} OversizedLines(f: Settings, lines: seq<Bytes>)
    requires f.Valid()
    ensures TakeLines(f, lines).oversized == if f.opaqueBytes then 0 else CountLong(lines, f.maxLine)
    decreases |lines|
  {
    if lines != [] {
      var n := |lines| - 1;
      OversizedLines(f, lines[..n]);
      var s, line := TakeLines(f, lines[..n]), lines[n];
      if f.spans(line).Some? {
        CutFieldsKeepsCounts(f, s, line, f.spans(line).value, 0, 0);
        CutFieldsKeepsCounts(f, s.(priced := s.priced + [line]), line, f.spans(line).value, 0, 0);
      }
    }
  }

  // ---------------------------------------------------------------- lines in pieces

  /** The state in the middle of a line: bytes of an oversized line are written as they come. */
  function Partial(f: Settings, s: State, bytes: Bytes): State {
    if f.opaqueBytes then Write(f, s, bytes)
    else if |bytes| > f.maxLine then Write(f, s.(oversized := s.oversized + 1), bytes)
    else s
  }

  lemma NothingPartial(f: Settings, s: State)
    ensures Partial(f, s, []) == s
  {
    assert s.parts + Residuals([]) == s.parts;
  }

  /** Writing in two pieces is writing at once. */
  lemma WriteTwice(f: Settings, s: State, a: Bytes, b: Bytes)
    ensures Write(f, Write(f, s, a), b) == Write(f, s, a + b)
  {
    WritesCompose(f.gears, s.chunk, a, b);
    var x, y := f.gears.Emitted(s.chunk, a), f.gears.Emitted(f.gears.Pending(s.chunk, a), b);
    assert Residuals(x + y) == Residuals(x) + Residuals(y);
    assert (s.parts + Residuals(x)) + Residuals(y) == s.parts + (Residuals(x) + Residuals(y));
  }

  /** The next fragment of a line that is already written as it comes. */
  lemma PartialGoesOn(f: Settings, s: State, a: Bytes, b: Bytes)
    requires f.opaqueBytes || |a| > f.maxLine
    ensures Write(f, Partial(f, s, a), b) == Partial(f, s, a + b)
  {
    if f.opaqueBytes {
      WriteTwice(f, s, a, b);
    } else {
      WriteTwice(f, s.(oversized := s.oversized + 1), a, b);
    }
  }

  /** The fragment that makes a line too long: what was held back is written first. */
  lemma PartialOverflows(f: Settings, s: State, a: Bytes, b: Bytes)
    requires !f.opaqueBytes && |a| <= f.maxLine < |a| + |b|
    ensures Write(f, Write(f, s.(oversized := s.oversized + 1), a), b) == Partial(f, s, a + b)
  {
    WriteTwice(f, s.(oversized := s.oversized + 1), a, b);
  }

  lemma OneMoreLine(f: Settings, lines: seq<Bytes>, line: Bytes)
    requires f.Valid()
    ensures TakeLines(f, lines + [line]) == TakeLine(f, TakeLines(f, lines), line)
  {
    assert (lines + [line])[..|lines|] == lines;
  }

  /** What is left to do when the file ends inside a line, or right after one. */
  lemma LastLine(f: Settings, data: Bytes, lines: seq<Bytes>, start: nat)
    requires f.Valid() && SeenTo(data, start, lines) && ReadingFrom(data, start, |data|, EndOfFile)
    ensures var before, rest := TakeLines(f, lines), data[start..];
            TakeLines(f, Split(data)) ==
              if f.opaqueBytes || |rest| > f.maxLine || rest == [] then Partial(f, before, rest)
              else ProcessLine(f, before, rest)
    ensures data[start..] == data[start..|data|]
  {
    var rest := data[start..];
    assert rest == data[start..|data|];
    if rest == [] {
      SeenEnd(data, lines);
      NothingPartial(f, TakeLines(f, lines));
    } else {
      SeenMore(data, start, |data|, EndOfFile, lines);
      SeenEnd(data, lines + [rest]);
      OneMoreLine(f, lines, rest);
    }
  }
}
