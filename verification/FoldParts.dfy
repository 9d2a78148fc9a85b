/**
  What the parts of a fold look like: which of them are fields and whole records, and how large the rest can be.
*/
module FoldParts {
  import opened Common
  import opened Records
  import opened Cdc
  import opened FoldSpec

  // ---------------------------------------------------------------- fields and records

  /** The parts that are not chunks, in order. */
  function Structure(parts: seq<Part>): seq<Part> {
    if parts == [] then []
    else
      var n := |parts| - 1;
      Structure(parts[..n]) + (if parts[n].kind == Residual then [] else [parts[n]])
  }

  /** The nonempty fields of a line from span `i` on, each with its path and its bytes. */
  function FieldParts(line: Bytes, spans: seq<Span>, i: nat): seq<Part>
    requires InOrder(spans, |line|) && i <= |spans|
    decreases |spans| - i
  {
    if i == |spans| then []
    else
      var data := line[spans[i].start..spans[i].end];
      (if data == [] then [] else [Part(Field, spans[i].path, data)]) + FieldParts(line, spans, i + 1)
  }

  predicate KeptWhole(f: Settings, s: State, line: Bytes)
    requires f.Valid()
  {
    f.duplicate(line) && |Components(f, line)| > 1 && f.worth(s.parts, s.priced, line)
  }

  /** What a line adds besides chunks: itself when kept whole, else its fields; nothing when it is too long. */
  function LineStructure(f: Settings, s: State, line: Bytes): seq<Part>
    requires f.Valid()
  {
    if f.opaqueBytes || |line| > f.maxLine || line == [] then []
    else if KeptWhole(f, s, line) then [Part(Record, 0, line)]
    else if f.spans(line).Some? then FieldParts(line, f.spans(line).value, 0)
    else []
  }

  function LinesStructure(f: Settings, lines: seq<Bytes>): seq<Part>
    requires f.Valid()
    decreases |lines|
  {
    if lines == [] then []
    else
      var n := |lines| - 1;
      LinesStructure(f, lines[..n]) + LineStructure(f, TakeLines(f, lines[..n]), lines[n])
  }

  lemma {:induction false} StructureAppend(a: seq<Part>, b: seq<Part>)
    ensures Structure(a + b) == Structure(a) + Structure(b)
    decreases |b|
  {
    if b == [] {
      assert a + b == a;
    } else {
      var n := |b| - 1;
      assert (a + b)[..|a| + n] == a + b[..n];
      StructureAppend(a, b[..n]);
    }
  }

  lemma {:induction false} NoStructure(chunks: seq<Bytes>)
    ensures Structure(Residuals(chunks)) == []
    decreases |chunks|
  {
    if chunks != [] {
      var n := |chunks| - 1;
      assert Residuals(chunks)[..n] == Residuals(chunks[..n]);
      NoStructure(chunks[..n]);
    }
  }

  lemma WriteStructure(f: Settings, s: State, data: Bytes)
    ensures Structure(Write(f, s, data).parts) == Structure(s.parts)
  {
    var chunks := f.gears.Emitted(s.chunk, data);
    StructureAppend(s.parts, Residuals(chunks));
    NoStructure(chunks);
  }

  lemma OneStructure(s: State, part: Part)
    ensures Structure(s.parts + [part]) == Structure(s.parts) + (if part.kind == Residual then [] else [part])
  {
    assert (s.parts + [part])[..|s.parts|] == s.parts;
  }

  lemma AppendStructure(s: State, part: Part)
    requires part.kind != Residual
    ensures Structure(Append(s, part).parts) == Structure(s.parts) + (if part.data == [] then [] else [part])
  {
    OneStructure(s, part);
  }

  lemma Regrouped(a: seq<Part>, b: seq<Part>, c: seq<Part>)
    ensures (a + b) + c == a + (b + c)
  {
  }

  lemma FlushStructure(s: State)
    ensures Structure(Flush(s).parts) == Structure(s.parts)
  {
    OneStructure(s, Part(Residual, 0, s.chunk));
  }

  /** Cutting a line adds exactly its nonempty fields, in order. */
  lemma {:induction false} CutFieldsStructure(f: Settings, s: State, line: Bytes, spans: seq<Span>, i: nat, cursor: nat)
    requires InOrder(spans, |line|) && i <= |spans| && cursor <= |line|
    requires i < |spans| ==> cursor <= spans[i].start
    ensures Structure(CutFields(f, s, line, spans, i, cursor).parts) == Structure(s.parts) + FieldParts(line, spans, i)
    decreases |spans| - i
  {
    if i == |spans| {
      WriteStructure(f, s, line[cursor..]);
    } else {
      var span := spans[i];
      var written := Write(f, s, line[cursor..span.start]);
      WriteStructure(f, s, line[cursor..span.start]);
      FlushStructure(written);
      var field := Part(Field, span.path, line[span.start..span.end]);
      AppendStructure(Flush(written), field);
      CutFieldsStructure(f, Append(Flush(written), field), line, spans, i + 1, span.end);
      Regrouped(Structure(s.parts), if field.data == [] then [] else [field], FieldParts(line, spans, i + 1));
    }
  }

  lemma CutLineStructure(f: Settings, s: State, line: Bytes)
    requires f.Valid()
    ensures Structure(CutLine(f, s, line).parts) ==
            Structure(s.parts) + (if f.spans(line).Some? then FieldParts(line, f.spans(line).value, 0) else [])
  {
    match f.spans(line)
    case None => WriteStructure(f, s.(invalid := s.invalid + 1), line);
    case Some(spans) => CutFieldsStructure(f, s, line, spans, 0, 0);
  }

  lemma {:induction false} NoFieldsOfNothing(spans: seq<Span>, i: nat)
    requires InOrder(spans, 0) && i <= |spans|
    ensures FieldParts([], spans, i) == []
    decreases |spans| - i
  {
    if i < |spans| {
      NoFieldsOfNothing(spans, i + 1);
    }
  }

  lemma TakeLineStructure(f: Settings, s: State, line: Bytes)
    requires f.Valid()
    ensures Structure(TakeLine(f, s, line).parts) == Structure(s.parts) + LineStructure(f, s, line)
  {
    if f.opaqueBytes {
      WriteStructure(f, s, line);
    } else if |line| > f.maxLine {
      WriteStructure(f, s.(oversized := s.oversized + 1), line);
    } else if line != [] {
      ProcessLineStructure(f, s, line);
    } else {
      EmptyLineStructure(f, s);
    }
  }

  lemma ProcessLineStructure(f: Settings, s: State, line: Bytes)
    requires f.Valid() && line != []
    ensures Structure(ProcessLine(f, s, line).parts) ==
            Structure(s.parts) + (if KeptWhole(f, s, line) then [Part(Record, 0, line)]
                                  else if f.spans(line).Some? then FieldParts(line, f.spans(line).value, 0) else [])
  {
    var priced := s.(priced := s.priced + [line]);
    if KeptWhole(f, s, line) {
      FlushStructure(priced);
      AppendStructure(Flush(priced), Part(Record, 0, line));
    } else if f.duplicate(line) {
      CutLineStructure(f, priced, line);
    } else {
      CutLineStructure(f, s, line);
    }
  }

  lemma EmptyLineStructure(f: Settings, s: State)
    requires f.Valid()
    ensures Structure(ProcessLine(f, s, []).parts) == Structure(s.parts)
  {
    var priced := s.(priced := s.priced + [[]]);
    FlushStructure(priced);
    AppendStructure(Flush(priced), Part(Record, 0, []));
    CutLineStructure(f, priced, []);
    CutLineStructure(f, s, []);
    if f.spans([]).Some? {
      NoFieldsOfNothing(f.spans([]).value, 0);
    }
  }

  /** The fields and whole records of a fold are, line by line, exactly those the lines call for. */
  lemma {:induction false} FoldStructure(f: Settings, lines: seq<Bytes>)
    requires f.Valid()
    ensures Structure(TakeLines(f, lines).parts) == LinesStructure(f, lines)
    ensures Structure(Flush(TakeLines(f, lines)).parts) == LinesStructure(f, lines)
    decreases |lines|
  {
    FlushStructure(TakeLines(f, lines));
    if lines != [] {
      var n := |lines| - 1;
      FoldStructure(f, lines[..n]);
      TakeLineStructure(f, TakeLines(f, lines[..n]), lines[n]);
    }
  }

  // ---------------------------------------------------------------- lines that are not JSON

  /** The lines that are looked at, not kept whole, and not valid JSON. */
  function CountInvalid(f: Settings, lines: seq<Bytes>): nat
    requires f.Valid()
    decreases |lines|
  {
    if lines == [] then 0
    else
      var n := |lines| - 1;
      var bad := !f.opaqueBytes && |lines[n]| <= f.maxLine && f.spans(lines[n]).None? &&
                 !KeptWhole(f, TakeLines(f, lines[..n]), lines[n]);
      CountInvalid(f, lines[..n]) + (if bad then 1 else 0)
  }

  lemma {:induction false} CutFieldsKeepsInvalid(f: Settings, s: State, line: Bytes, spans: seq<Span>, i: nat,
                                                 cursor: nat)
    requires InOrder(spans, |line|) && i <= |spans| && cursor <= |line|
    requires i < |spans| ==> cursor <= spans[i].start
    ensures CutFields(f, s, line, spans, i, cursor).invalid == s.invalid
    decreases |spans| - i
  {
    if i < |spans| {
      var before := Flush(Write(f, s, line[cursor..spans[i].start]));
      var next := Append(before, Part(Field, spans[i].path, line[spans[i].start..spans[i].end]));
      CutFieldsKeepsInvalid(f, next, line, spans, i + 1, spans[i].end);
    }
  }

  lemma {:induction false} InvalidLines(f: Settings, lines: seq<Bytes>)
    requires f.Valid()
    ensures TakeLines(f, lines).invalid == CountInvalid(f, lines)
    decreases |lines|
  {
    if lines != [] {
      var n := |lines| - 1;
      InvalidLines(f, lines[..n]);
      var s, line := TakeLines(f, lines[..n]), lines[n];
      if f.spans(line).Some? {
        CutFieldsKeepsInvalid(f, s, line, f.spans(line).value, 0, 0);
        CutFieldsKeepsInvalid(f, s.(priced := s.priced + [line]), line, f.spans(line).value, 0, 0);
      }
    }
  }

  // ---------------------------------------------------------------- sizes

  predicate PartFits(f: Settings, part: Part) {
    part.data != [] && (part.kind == Residual ==> |part.data| <= f.gears.maxBytes)
  }

  /** All parts are nonempty, chunks are within the maximum, and the pending bytes have no cut. */
  ghost predicate Sized(f: Settings, s: State) {
    f.gears.Uncut(s.chunk) && forall i | 0 <= i < |s.parts| :: PartFits(f, s.parts[i])
  }

  lemma WriteSized(f: Settings, s: State, data: Bytes)
    requires f.gears.Valid() && Sized(f, s)
    ensures Sized(f, Write(f, s, data))
  {
    var chunks := f.gears.Emitted(s.chunk, data);
    EmittedAreFirstCuts(f.gears, s.chunk, data);
    forall i | 0 <= i < |chunks|
      ensures PartFits(f, Residuals(chunks)[i])
    {
      var c := chunks[i];
      assert f.gears.FirstCut(c);
      UncutIsShort(f.gears, c[..|c| - 1]);
    }
  }

  lemma FlushSized(f: Settings, s: State)
    requires f.gears.Valid() && Sized(f, s)
    ensures Sized(f, Flush(s))
  {
    UncutIsShort(f.gears, s.chunk);
  }

  lemma {:induction false} CutFieldsSized(f: Settings, s: State, line: Bytes, spans: seq<Span>, i: nat, cursor: nat)
    requires f.gears.Valid() && Sized(f, s) && InOrder(spans, |line|) && i <= |spans| && cursor <= |line|
    requires i < |spans| ==> cursor <= spans[i].start
    ensures Sized(f, CutFields(f, s, line, spans, i, cursor))
    decreases |spans| - i
  {
    if i == |spans| {
      WriteSized(f, s, line[cursor..]);
    } else {
      var written := Write(f, s, line[cursor..spans[i].start]);
      WriteSized(f, s, line[cursor..spans[i].start]);
      FlushSized(f, written);
      var field := Part(Field, spans[i].path, line[spans[i].start..spans[i].end]);
      CutFieldsSized(f, Append(Flush(written), field), line, spans, i + 1, spans[i].end);
    }
  }

  lemma CutLineSized(f: Settings, s: State, line: Bytes)
    requires f.Valid() && Sized(f, s)
    ensures Sized(f, CutLine(f, s, line))
  {
    match f.spans(line)
    case None => WriteSized(f, s.(invalid := s.invalid + 1), line);
    case Some(spans) => CutFieldsSized(f, s, line, spans, 0, 0);
  }

  lemma TakeLineSized(f: Settings, s: State, line: Bytes)
    requires f.Valid() && Sized(f, s)
    ensures Sized(f, TakeLine(f, s, line))
  {
    if f.opaqueBytes {
      WriteSized(f, s, line);
    } else if |line| > f.maxLine {
      WriteSized(f, s.(oversized := s.oversized + 1), line);
    } else {
      var priced := s.(priced := s.priced + [line]);
      CutLineSized(f, s, line);
      CutLineSized(f, priced, line);
      FlushSized(f, priced);
    }
  }

  /** No part of a fold is empty, and no chunk exceeds the maximum. */
  lemma {:induction false} FoldSized(f: Settings, lines: seq<Bytes>)
    requires f.Valid()
    ensures Sized(f, TakeLines(f, lines)) && Sized(f, Flush(TakeLines(f, lines)))
    decreases |lines|
  {
    if lines != [] {
      var n := |lines| - 1;
      FoldSized(f, lines[..n]);
      TakeLineSized(f, TakeLines(f, lines[..n]), lines[n]);
    }
    FlushSized(f, TakeLines(f, lines));
  }
}
