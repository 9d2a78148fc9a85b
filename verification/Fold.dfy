/**
  Folding a rollout as it runs: the file is read in fragments, reassembled into lines, and the lines are cut
  into parts while the state is updated in place.
*/
module Fold {
  import opened Common
  import opened Records
  import opened Cdc
  import opened Spec = FoldSpec
  import opened FoldParts
  import opened FoldLayout

  class FoldRun {
    const settings: Settings
    const chunker: Chunker
    var parts: seq<Part>
    var priced: seq<Bytes>
    var oversized: nat
    var invalid: nat
    var line: Bytes     // the line being assembled
    var over: bool      // its bytes go straight to the chunker

    ghost predicate Valid()
      reads this, chunker
    {
      settings.Valid() && chunker.gears == settings.gears && chunker.Valid()
    }

    ghost function Now(): State
      reads this, chunker
    {
      State(parts, chunker.chunk, priced, oversized, invalid)
    }

    constructor (settings: Settings)
      requires settings.Valid()
      ensures Valid() && fresh(chunker) && this.settings == settings && Now() == EMPTY
      ensures line == [] && over == settings.opaqueBytes
    {
      this.settings := settings;
      chunker := new Chunker(settings.gears);
      parts, priced, oversized, invalid, line, over := [], [], 0, 0, [], settings.opaqueBytes;
    }

    method AppendPart(part: Part)
      requires Valid()
      modifies `parts
      ensures Valid() && Now() == Append(old(Now()), part)
    {
      if |part.data| != 0 {
        parts := parts + [part];
      }
    }

    method WriteResidual(data: Bytes)
      requires Valid()
      modifies `parts, chunker
      ensures Valid() && Now() == Spec.Write(settings, old(Now()), data)
    {
      var emitted := chunker.Write(data);
      parts := parts + Residuals(emitted);
    }

    method FlushResidual()
      requires Valid()
      modifies `parts, chunker
      ensures Valid() && Now() == Flush(old(Now()))
    {
      var emitted := chunker.Finish();
      parts := parts + Residuals(emitted);
    }

    method CutFields(line: Bytes, spans: seq<Span>)
      requires Valid() && InOrder(spans, |line|)
      modifies `parts, chunker
      ensures Valid() && Now() == Spec.CutFields(settings, old(Now()), line, spans, 0, 0)
    {
      var cursor: nat := 0;
      for i := 0 to |spans|
        invariant Valid() && cursor <= |line| && (i < |spans| ==> cursor <= spans[i].start)
        invariant i > 0 ==> cursor == spans[i - 1].end
        invariant Spec.CutFields(settings, Now(), line, spans, i, cursor) ==
                  Spec.CutFields(settings, old(Now()), line, spans, 0, 0)
      {
        WriteResidual(line[cursor..spans[i].start]);
        FlushResidual();
        AppendPart(Part(Field, spans[i].path, line[spans[i].start..spans[i].end]));
        cursor := spans[i].end;
      }
      WriteResidual(line[cursor..]);
    }

    method CutLine(line: Bytes)
      requires Valid()
      modifies `parts, `invalid, chunker
      ensures Valid() && Now() == Spec.CutLine(settings, old(Now()), line)
    {
      var spans := settings.spans(line);
      if spans.None? {
        invalid := invalid + 1;
        WriteResidual(line);
      } else {
        CutFields(line, spans.value);
      }
    }

    method PlanRecordComponents(line: Bytes) returns (components: seq<Part>)
      requires Valid()
      ensures components == Components(settings, line)
    {
      var alone := new FoldRun(settings);
      alone.CutLine(line);
      alone.FlushResidual();
      components := alone.parts;
    }

    method ProcessLine(line: Bytes)
      requires Valid()
      modifies `parts, `priced, `invalid, chunker
      ensures Valid() && Now() == Spec.ProcessLine(settings, old(Now()), line)
    {
      if settings.duplicate(line) {
        var components := PlanRecordComponents(line);
        var worth := settings.worth(parts, priced, line);
        priced := priced + [line];
        if |components| > 1 && worth {
          FlushResidual();
          AppendPart(Part(Record, 0, line));
          return;
        }
      }
      CutLine(line);
    }

    /** Take one fragment of a line that began with `sofar`, in the state `before`. */
    method TakeFragment(fragment: Bytes, ghost before: State, ghost sofar: Bytes)
      requires Valid() && Assembling(before, sofar)
      modifies this, chunker
      ensures Valid() && Assembling(before, sofar + fragment)
    {
      if over {
        PartialGoesOn(settings, before, sofar, fragment);
        WriteResidual(fragment);
      } else if |line| + |fragment| > settings.maxLine {
        Overflow(fragment, before);
      } else {
        line := line + fragment;
      }
    }

    /** The line has become too long to be held back. */
    method Overflow(fragment: Bytes, ghost before: State)
      requires Valid() && Assembling(before, line) && !over && |line| + |fragment| > settings.maxLine
      modifies this, chunker
      ensures Valid() && Assembling(before, old(line) + fragment)
    {
      ghost var sofar := line;
      PartialOverflows(settings, before, sofar, fragment);
      over := true;
      oversized := oversized + 1;
      WriteResidual(line);
      line := [];
      WriteResidual(fragment);
    }

    /** The line is complete. */
    method EndLine(ghost before: State, ghost whole: Bytes)
      requires Valid() && Assembling(before, whole)
      modifies this, chunker
      ensures Valid() && Assembling(TakeLine(settings, before, whole), [])
    {
      if !over {
        ProcessLine(line);
      }
      line, over := [], settings.opaqueBytes;
      NothingPartial(settings, TakeLine(settings, before, whole));
    }

    /** The state and the line buffer after `sofar`, the beginning of a line that started in `before`. */
    ghost predicate Assembling(before: State, sofar: Bytes)
      reads this, chunker
    {
      && Now() == Partial(settings, before, sofar)
      && (over <==> settings.opaqueBytes || |sofar| > settings.maxLine)
      && line == (if over then [] else sofar)
    }

    /** Read one fragment of the line that starts at `start`. */
    method TakeNext(data: Bytes, at: nat, buffer: nat, ghost start: nat, ghost before: State)
      returns (end: nat, why: Status)
      requires Valid() && buffer > 0 && ReadingFrom(data, start, at, BufferFull) && Assembling(before, data[start..at])
      modifies this, chunker
      ensures Valid() && at <= end && ReadingFrom(data, start, end, why) && Assembling(before, data[start..end])
      ensures why != EndOfFile ==> at < end
    {
      var (stop, status) := ReadSlice(data, at, buffer);
      end, why := stop, status;
      ReadOn(data, start, at, end, why);
      TakeFragment(data[at..end], before, data[start..at]);
    }

    /** The file has ended: what is left of a last line without newline is processed. */
    method TakeRest(ghost data: Bytes, ghost start: nat, ghost lines: seq<Bytes>)
      requires Valid() && SeenTo(data, start, lines) && ReadingFrom(data, start, |data|, EndOfFile)
      requires Assembling(TakeLines(settings, lines), data[start..|data|])
      modifies this, chunker
      ensures Valid() && Now() == TakeLines(settings, Split(data))
    {
      LastLine(settings, data, lines, start);
      if !over && |line| > 0 {
        ProcessLine(line);
      }
    }

    /**
      The reading loop.  `buffer` is the size of the read buffer: the result does not mention it.
    */
    method Run(data: Bytes, buffer: nat)
      requires Valid() && Now() == EMPTY && line == [] && over == settings.opaqueBytes && buffer > 0
      modifies this, chunker
      ensures Valid() && Now() == FoldOf(settings, data)
      ensures Join(Data(parts)) == data
      ensures parts == Layout(settings.gears, Items(settings, Split(data)))
      ensures Explained(settings.gears, Items(settings, Split(data)), parts)
      ensures oversized == if settings.opaqueBytes then 0 else CountLong(Split(data), settings.maxLine)
      ensures invalid == CountInvalid(settings, Split(data))
    {
      var at: nat, why := 0, BufferFull;
      ghost var lines: seq<Bytes>, start: nat := [], 0;
      SeenStart(data);
      NothingPartial(settings, EMPTY);
      while why != EndOfFile
        invariant Valid() && SeenTo(data, start, lines)
        invariant ReadingFrom(data, start, at, if why == EndOfFile then EndOfFile else BufferFull)
        invariant Assembling(TakeLines(settings, lines), data[start..at])
        decreases why != EndOfFile, |data| - at
      {
        at, why := TakeNext(data, at, buffer, start, TakeLines(settings, lines));
        if why == Newline {
          SeenMore(data, start, at, why, lines);
          OneMoreLine(settings, lines, data[start..at]);
          EndLine(TakeLines(settings, lines), data[start..at]);
          lines, start := lines + [data[start..at]], at;
        }
      }
      TakeRest(data, start, lines);
      FlushResidual();
      PartsAreTheSource(settings, data);
      FoldIsLayout(settings, data);
      ChunksTouchAtCuts(settings, data);
      OversizedLines(settings, Split(data));
      InvalidLines(settings, Split(data));
    }
  }
}
