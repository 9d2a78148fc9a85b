/**
  Where the parts of a fold begin and end.  The source is read as loose bytes with stops in between, the stops being its
  large fields and the records that are kept whole.  Only a stop ends a gap of loose bytes: the end of a line does not,
  nor does a line that is too long or not JSON.  Every gap is chunked on its own.
*/
module FoldLayout {
  import opened Common
  import opened Records
  import opened Cdc
  import opened FoldSpec
  import opened FoldParts

  // ---------------------------------------------------------------- the source as loose bytes and stops

  datatype Item = Loose(bytes: Bytes) | Stop(part: Part)

  /** A line from span `i` and byte `cursor` on. */
  function FieldItems(line: Bytes, spans: seq<Span>, i: nat, cursor: nat): seq<Item>
    requires InOrder(spans, |line|) && i <= |spans| && cursor <= |line|
    requires i < |spans| ==> cursor <= spans[i].start
    decreases |spans| - i
  {
    if i == |spans| then [Loose(line[cursor..])]
    else
      var span := spans[i];
      [Loose(line[cursor..span.start]), Stop(Part(Field, span.path, line[span.start..span.end]))] +
      FieldItems(line, spans, i + 1, span.end)
  }

  function LineItems(f: Settings, s: State, line: Bytes): seq<Item>
    requires f.Valid()
  {
    if f.opaqueBytes || |line| > f.maxLine then [Loose(line)]
    else if KeptWhole(f, s, line) then [Stop(Part(Record, 0, line))]
    else if f.spans(line).Some? then FieldItems(line, f.spans(line).value, 0, 0)
    else [Loose(line)]
  }

  function Items(f: Settings, lines: seq<Bytes>): seq<Item>
    requires f.Valid()
    decreases |lines|
  {
    if lines == [] then []
    else
      var n := |lines| - 1;
      Items(f, lines[..n]) + LineItems(f, TakeLines(f, lines[..n]), lines[n])
  }

  function ItemBytes(items: seq<Item>): Bytes
    decreases |items|
  {
    if items == [] then []
    else
      var n := |items| - 1;
      ItemBytes(items[..n]) + (if items[n].Loose? then items[n].bytes else items[n].part.data)
  }

  // ---------------------------------------------------------------- the parts that they call for

  /** The chunks of a gap: those of the chunker, and what is left over at its end. */
  function GapChunks(g: Gears, gap: Bytes): seq<Bytes> {
    g.Emitted([], gap) + (if g.Pending([], gap) == [] then [] else [g.Pending([], gap)])
  }

  function GapParts(g: Gears, gap: Bytes): seq<Part> {
    Residuals(GapChunks(g, gap))
  }

  /** The loose bytes since the last stop. */
  function OpenGap(items: seq<Item>): Bytes
    decreases |items|
  {
    if items == [] || items[|items| - 1].Stop? then []
    else OpenGap(items[..|items| - 1]) + items[|items| - 1].bytes
  }

  /** The parts up to the last stop; an empty stop has none. */
  function Closed(g: Gears, items: seq<Item>): seq<Part>
    decreases |items|
  {
    if items == [] then []
    else
      var before, last := items[..|items| - 1], items[|items| - 1];
      if last.Loose? then Closed(g, before)
      else if last.part.data == [] then Closed(g, before) + GapParts(g, OpenGap(before))
      else Closed(g, before) + GapParts(g, OpenGap(before)) + [last.part]
  }

  function Layout(g: Gears, items: seq<Item>): seq<Part> {
    Closed(g, items) + GapParts(g, OpenGap(items))
  }

  // ---------------------------------------------------------------- the state of a fold follows the items

  ghost predicate Follows(g: Gears, s: State, items: seq<Item>) {
    && s.parts == Closed(g, items) + Residuals(g.Emitted([], OpenGap(items)))
    && s.chunk == g.Pending([], OpenGap(items))
  }

  lemma WriteFollows(f: Settings, s: State, items: seq<Item>, x: Bytes)
    requires Follows(f.gears, s, items)
    ensures Follows(f.gears, Write(f, s, x), items + [Loose(x)])
  {
    assert (items + [Loose(x)])[..|items|] == items;
    var gap := OpenGap(items);
    WritesCompose(f.gears, [], gap, x);
    var a, b := f.gears.Emitted([], gap), f.gears.Emitted(s.chunk, x);
    assert Residuals(a + b) == Residuals(a) + Residuals(b);
    Regrouped(Closed(f.gears, items), Residuals(a), Residuals(b));
  }

  lemma FlushFollows(g: Gears, s: State, items: seq<Item>)
    requires Follows(g, s, items)
    ensures Flush(s).parts == Layout(g, items) && Flush(s).chunk == []
  {
    var x := g.Emitted([], OpenGap(items));
    if s.chunk == [] {
      assert GapChunks(g, OpenGap(items)) == x;
    } else {
      assert Residuals(x + [s.chunk]) == Residuals(x) + [Part(Residual, 0, s.chunk)];
      Regrouped(Closed(g, items), Residuals(x), [Part(Residual, 0, s.chunk)]);
    }
  }

  lemma StopFollows(g: Gears, s: State, items: seq<Item>, part: Part)
    requires Follows(g, s, items)
    ensures Follows(g, Append(Flush(s), part), items + [Stop(part)])
  {
    FlushFollows(g, s, items);
    assert (items + [Stop(part)])[..|items|] == items;
    assert Residuals([]) == [];
  }

  lemma Regroup2(items: seq<Item>, a: Item, b: Item, more: seq<Item>)
    ensures items + ([a, b] + more) == (items + [a] + [b]) + more
  {
  }

  lemma {:induction false} CutFieldsFollows(f: Settings, s: State, items: seq<Item>, line: Bytes, spans: seq<Span>,
                                            i: nat, cursor: nat)
    requires InOrder(spans, |line|) && i <= |spans| && cursor <= |line|
    requires i < |spans| ==> cursor <= spans[i].start
    requires Follows(f.gears, s, items)
    ensures Follows(f.gears, CutFields(f, s, line, spans, i, cursor), items + FieldItems(line, spans, i, cursor))
    decreases |spans| - i
  {
    if i == |spans| {
      WriteFollows(f, s, items, line[cursor..]);
    } else {
      var x, field := line[cursor..spans[i].start], Part(Field, spans[i].path, line[spans[i].start..spans[i].end]);
      WriteFollows(f, s, items, x);
      StopFollows(f.gears, Write(f, s, x), items + [Loose(x)], field);
      CutFieldsFollows(f, Append(Flush(Write(f, s, x)), field), items + [Loose(x)] + [Stop(field)], line, spans, i + 1,
                       spans[i].end);
      Regroup2(items, Loose(x), Stop(field), FieldItems(line, spans, i + 1, spans[i].end));
    }
  }

  lemma CutLineFollows(f: Settings, s: State, items: seq<Item>, line: Bytes)
    requires f.Valid() && Follows(f.gears, s, items)
    ensures var cut := if f.spans(line).Some? then FieldItems(line, f.spans(line).value, 0, 0) else [Loose(line)];
            Follows(f.gears, CutLine(f, s, line), items + cut)
  {
    match f.spans(line)
    case None => WriteFollows(f, s.(invalid := s.invalid + 1), items, line);
    case Some(spans) => CutFieldsFollows(f, s, items, line, spans, 0, 0);
  }

  lemma TakeLineFollows(f: Settings, s: State, items: seq<Item>, line: Bytes)
    requires f.Valid() && Follows(f.gears, s, items)
    ensures Follows(f.gears, TakeLine(f, s, line), items + LineItems(f, s, line))
  {
    var priced := s.(priced := s.priced + [line]);
    if f.opaqueBytes {
      WriteFollows(f, s, items, line);
    } else if |line| > f.maxLine {
      WriteFollows(f, s.(oversized := s.oversized + 1), items, line);
    } else if KeptWhole(f, s, line) {
      StopFollows(f.gears, priced, items, Part(Record, 0, line));
    } else if f.duplicate(line) {
      CutLineFollows(f, priced, items, line);
    } else {
      CutLineFollows(f, s, items, line);
    }
  }

  lemma {:induction false} TakeLinesFollows(f: Settings, lines: seq<Bytes>)
    requires f.Valid()
    ensures Follows(f.gears, TakeLines(f, lines), Items(f, lines))
    decreases |lines|
  {
    if lines != [] {
      var n := |lines| - 1;
      TakeLinesFollows(f, lines[..n]);
      TakeLineFollows(f, TakeLines(f, lines[..n]), Items(f, lines[..n]), lines[n]);
    }
  }

  /** The parts of a fold are exactly those that the loose bytes and the stops of its source call for. */
  lemma FoldIsLayout(f: Settings, data: Bytes)
    requires f.Valid()
    ensures FoldOf(f, data).parts == Layout(f.gears, Items(f, Split(data)))
  {
    TakeLinesFollows(f, Split(data));
    FlushFollows(f.gears, TakeLines(f, Split(data)), Items(f, Split(data)));
  }

  // ---------------------------------------------------------------- the items are the source

  lemma {:induction false} ItemsAppend(a: seq<Item>, b: seq<Item>)
    ensures ItemBytes(a + b) == ItemBytes(a) + ItemBytes(b)
    decreases |b|
  {
    if b == [] {
      assert a + b == a;
    } else {
      var n := |b| - 1;
      assert (a + b)[..|a| + n] == a + b[..n];
      ItemsAppend(a, b[..n]);
    }
  }

  lemma OneItem(item: Item)
    ensures ItemBytes([item]) == if item.Loose? then item.bytes else item.part.data
  {
    assert [item][..0] == [];
  }

  lemma TwoItems(a: Item, b: Item)
    ensures ItemBytes([a, b]) == ItemBytes([a]) + ItemBytes([b])
  {
    assert [a, b] == [a] + [b];
    ItemsAppend([a], [b]);
  }

  lemma {:induction false} FieldItemsBytes(line: Bytes, spans: seq<Span>, i: nat, cursor: nat)
    requires InOrder(spans, |line|) && i <= |spans| && cursor <= |line|
    requires i < |spans| ==> cursor <= spans[i].start
    ensures ItemBytes(FieldItems(line, spans, i, cursor)) == line[cursor..]
    decreases |spans| - i
  {
    if i == |spans| {
      OneItem(Loose(line[cursor..]));
    } else {
      var span := spans[i];
      var loose, stop := Loose(line[cursor..span.start]), Stop(Part(Field, span.path, line[span.start..span.end]));
      ItemsAppend([loose, stop], FieldItems(line, spans, i + 1, span.end));
      TwoItems(loose, stop);
      OneItem(loose);
      OneItem(stop);
      FieldItemsBytes(line, spans, i + 1, span.end);
      ThreePieces(line, cursor, span.start, span.end);
    }
  }

  lemma LineItemsBytes(f: Settings, s: State, line: Bytes)
    requires f.Valid()
    ensures ItemBytes(LineItems(f, s, line)) == line
  {
    OneItem(Loose(line));
    OneItem(Stop(Part(Record, 0, line)));
    if f.spans(line).Some? {
      FieldItemsBytes(line, f.spans(line).value, 0, 0);
      assert line[0..] == line;
    }
  }

  lemma JoinLast(lines: seq<Bytes>)
    requires lines != []
    ensures Join(lines) == Join(lines[..|lines| - 1]) + lines[|lines| - 1]
  {
    var n := |lines| - 1;
    assert lines == lines[..n] + [lines[n]];
    JoinAppend(lines[..n], [lines[n]]);
    JoinOne(lines[n]);
  }

  /** The loose bytes and the stops make up the lines. */
  lemma {:induction false} ItemsAreTheLines(f: Settings, lines: seq<Bytes>)
    requires f.Valid()
    ensures ItemBytes(Items(f, lines)) == Join(lines)
    decreases |lines|
  {
    if lines != [] {
      var n := |lines| - 1;
      ItemsAreTheLines(f, lines[..n]);
      LineItemsBytes(f, TakeLines(f, lines[..n]), lines[n]);
      ItemsAppend(Items(f, lines[..n]), LineItems(f, TakeLines(f, lines[..n]), lines[n]));
      JoinLast(lines);
    }
  }

  // ---------------------------------------------------------------- chunks that touch

  /** The chunks of a gap are the reference chunking of its bytes, what is left over being the last of them. */
  lemma GapIsChunking(g: Gears, gap: Bytes)
    ensures g.IsChunking(gap, g.Emitted([], gap), g.Pending([], gap))
    ensures forall i | 0 <= i < |GapChunks(g, gap)| - 1 :: g.FirstCut(GapChunks(g, gap)[i])
  {
    WriteGivesChunking(g, gap);
  }

  lemma GapCuts(g: Gears, gap: Bytes, i: nat)
    requires i + 1 < |GapParts(g, gap)|
    ensures g.FirstCut(GapParts(g, gap)[i].data)
  {
    GapIsChunking(g, gap);
    assert GapParts(g, gap)[i].data == GapChunks(g, gap)[i];
  }

  function Size(parts: seq<Part>): nat {
    |Join(Data(parts))|
  }

  /** An empty field (or record) after `n` bytes: the only thing that ends a chunk and leaves no part. */
  ghost predicate EmptyStopAt(items: seq<Item>, n: nat) {
    exists k | 0 <= k < |items| ::
      items[k].Stop? && items[k].part.data == [] && |ItemBytes(items[..k])| == n
  }

  /** Of two chunks in a row the first ends where the chunker cuts, or right before an empty field. */
  ghost predicate Explained(g: Gears, items: seq<Item>, parts: seq<Part>) {
    forall i | 0 <= i < |parts| - 1 && parts[i].kind == Residual && parts[i + 1].kind == Residual ::
      g.FirstCut(parts[i].data) || EmptyStopAt(items, Size(parts[..i + 1]))
  }

  /** A chunk at the end stands right before an empty field. */
  ghost predicate EndExplained(items: seq<Item>, parts: seq<Part>) {
    parts != [] && parts[|parts| - 1].kind == Residual ==> EmptyStopAt(items, Size(parts))
  }

  ghost predicate NoChunkStops(items: seq<Item>) {
    forall i | 0 <= i < |items| && items[i].Stop? :: items[i].part.kind != Residual
  }

  lemma EmptyStopStays(items: seq<Item>, item: Item, n: nat)
    requires EmptyStopAt(items, n)
    ensures EmptyStopAt(items + [item], n)
  {
    var k :| 0 <= k < |items| && items[k].Stop? && items[k].part.data == [] && |ItemBytes(items[..k])| == n;
    assert (items + [item])[..k] == items[..k] && (items + [item])[k] == items[k];
  }

  lemma ExplainedStays(g: Gears, items: seq<Item>, item: Item, parts: seq<Part>)
    requires Explained(g, items, parts) && EndExplained(items, parts)
    ensures Explained(g, items + [item], parts) && EndExplained(items + [item], parts)
  {
    forall n: nat | EmptyStopAt(items, n)
      ensures EmptyStopAt(items + [item], n)
    {
      EmptyStopStays(items, item, n);
    }
  }

  lemma PrefixOfPrefix(before: seq<Part>, more: seq<Part>, n: nat)
    requires n <= |before|
    ensures (before + more)[..n] == before[..n] && before[..|before|] == before
  {
  }

  /** A gap after what is explained. */
  lemma GapExplained(g: Gears, items: seq<Item>, before: seq<Part>, gap: Bytes)
    requires Explained(g, items, before) && EndExplained(items, before)
    ensures Explained(g, items, before + GapParts(g, gap))
  {
    var parts := before + GapParts(g, gap);
    forall i | 0 <= i < |parts| - 1 && parts[i].kind == Residual && parts[i + 1].kind == Residual
      ensures g.FirstCut(parts[i].data) || EmptyStopAt(items, Size(parts[..i + 1]))
    {
      if i >= |before| {
        GapCuts(g, gap, i - |before|);
      } else {
        PrefixOfPrefix(before, GapParts(g, gap), i + 1);
      }
    }
  }

  /** A part that is no chunk after what is explained. */
  lemma PartExplained(g: Gears, items: seq<Item>, before: seq<Part>, part: Part)
    requires Explained(g, items, before) && part.kind != Residual
    ensures Explained(g, items, before + [part]) && EndExplained(items, before + [part])
  {
    var parts := before + [part];
    forall i | 0 <= i < |parts| - 1 && parts[i].kind == Residual && parts[i + 1].kind == Residual
      ensures g.FirstCut(parts[i].data) || EmptyStopAt(items, Size(parts[..i + 1]))
    {
      PrefixOfPrefix(before, [part], i + 1);
    }
  }

  lemma GapSize(g: Gears, gap: Bytes)
    ensures Size(GapParts(g, gap)) == |gap|
  {
    var chunks, rest := g.Emitted([], gap), g.Pending([], gap);
    NothingLost(g, [], gap);
    assert Data(GapParts(g, gap)) == GapChunks(g, gap);
    if rest != [] {
      JoinAppend(chunks, [rest]);
      JoinOne(rest);
    } else {
      assert GapChunks(g, gap) == chunks;
    }
  }

  lemma LayoutSize(g: Gears, items: seq<Item>)
    requires Size(Closed(g, items)) + |OpenGap(items)| == |ItemBytes(items)|
    ensures Size(Layout(g, items)) == |ItemBytes(items)|
  {
    JoinParts(Closed(g, items), GapParts(g, OpenGap(items)));
    GapSize(g, OpenGap(items));
  }

  lemma {:induction false} ClosedSize(g: Gears, items: seq<Item>)
    ensures Size(Closed(g, items)) + |OpenGap(items)| == |ItemBytes(items)|
    decreases |items|
  {
    if items != [] {
      var before, last := items[..|items| - 1], items[|items| - 1];
      ClosedSize(g, before);
      if last.Stop? {
        LayoutSize(g, before);
        JoinParts(Layout(g, before), [last.part]);
        OnePart(last.part);
      }
    }
  }

  /** A gap that an empty stop ends. */
  lemma EmptyStopExplained(g: Gears, before: seq<Item>, last: Item)
    requires last.Stop? && last.part.data == []
    ensures EndExplained(before + [last], Layout(g, before))
  {
    ClosedSize(g, before);
    LayoutSize(g, before);
    var items := before + [last];
    assert items[|before|] == last && items[..|before|] == before;
    assert EmptyStopAt(items, |ItemBytes(before)|);
  }

  lemma {:induction false} ClosedExplained(g: Gears, items: seq<Item>)
    requires NoChunkStops(items)
    ensures Explained(g, items, Closed(g, items)) && EndExplained(items, Closed(g, items))
    decreases |items|
  {
    if items != [] {
      var before, last := items[..|items| - 1], items[|items| - 1];
      assert items == before + [last];
      ClosedExplained(g, before);
      ExplainedStays(g, before, last, Closed(g, before));
      if last.Stop? {
        GapExplained(g, items, Closed(g, before), OpenGap(before));
        if last.part.data == [] {
          EmptyStopExplained(g, before, last);
        } else {
          PartExplained(g, items, Layout(g, before), last.part);
        }
      }
    }
  }

  lemma {:induction false} FieldsAreNoChunks(line: Bytes, spans: seq<Span>, i: nat, cursor: nat)
    requires InOrder(spans, |line|) && i <= |spans| && cursor <= |line|
    requires i < |spans| ==> cursor <= spans[i].start
    ensures NoChunkStops(FieldItems(line, spans, i, cursor))
    decreases |spans| - i
  {
    if i < |spans| {
      FieldsAreNoChunks(line, spans, i + 1, spans[i].end);
    }
  }

  lemma {:induction false} StopsAreNoChunks(f: Settings, lines: seq<Bytes>)
    requires f.Valid()
    ensures NoChunkStops(Items(f, lines))
    decreases |lines|
  {
    if lines != [] {
      var n := |lines| - 1;
      StopsAreNoChunks(f, lines[..n]);
      if f.spans(lines[n]).Some? {
        FieldsAreNoChunks(lines[n], f.spans(lines[n]).value, 0, 0);
      }
    }
  }

  /**
    Two chunks that follow each other in a fold, in one line or in several, are separated by a cut of the chunker, or by
    an empty field: nothing else ends a chunk but a field, a whole record or the end of the source.
  */
  lemma ChunksTouchAtCuts(f: Settings, data: Bytes)
    requires f.Valid()
    ensures Explained(f.gears, Items(f, Split(data)), FoldOf(f, data).parts)
  {
    var items := Items(f, Split(data));
    FoldIsLayout(f, data);
    StopsAreNoChunks(f, Split(data));
    ClosedExplained(f.gears, items);
    GapExplained(f.gears, items, Closed(f.gears, items), OpenGap(items));
  }
}
