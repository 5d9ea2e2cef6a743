/** The browser's ring buffer. */
module LogsBuffers {
  import opened Basics
  import opened LogTypes
  import R = SessionRuns

  datatype LogsBuffer = LogsBuffer(lines: seq<LogLine>, dropped: nat)

  const EMPTY_LOGS_BUFFER := LogsBuffer([], 0)

  function AppendBatch(buffer: LogsBuffer, batch: LogsBatch, max: nat): LogsBuffer {
    var all := buffer.lines + batch.lines;
    var overflow := if |all| > max then |all| - max else 0;
    LogsBuffer(if overflow > 0 then all[overflow..] else all, buffer.dropped + batch.dropped + overflow)
  }

  function AppendAll(batches: seq<LogsBatch>, max: nat): LogsBuffer
    decreases |batches|
  {
    if batches == [] then EMPTY_LOGS_BUFFER
    else AppendBatch(AppendAll(batches[..|batches| - 1], max), batches[|batches| - 1], max)
  }

  lemma LastOfNonEmpty(s: seq<LogLine>, max: nat)
    ensures 0 < max && s != [] ==> Last(s, max) != [] && Last(s, max)[|Last(s, max)| - 1] == s[|s| - 1]
  {
  }

  lemma LastOfLast(a: seq<LogLine>, b: seq<LogLine>, max: nat)
    ensures Last(Last(a, max) + b, max) == Last(a + b, max)
  {
  }

  /** The buffer shows the newest `max` delivered lines and counts every other line it was told of. */
  lemma {:induction false} BufferShowsNewest(batches: seq<LogsBatch>, max: nat)
    ensures var buffer := AppendAll(batches, max);
            && buffer.lines == Last(R.Delivered(batches), max)
            && buffer.dropped + |buffer.lines| == R.Covered(batches)
    decreases |batches|
  {
    if batches != [] {
      var init, batch := batches[..|batches| - 1], batches[|batches| - 1];
      BufferShowsNewest(init, max);
      LastOfLast(R.Delivered(init), batch.lines, max);
      var all := AppendAll(init, max).lines + batch.lines;
      assert AppendAll(batches, max).lines == Last(all, max);
    }
  }
}

/** From the bytes of a container's log stream to the lines on screen. */
module LogPipeline {
  import opened Basics
  import opened LogTypes
  import opened Frames
  import opened LogLines
  import opened Utf8
  import opened PayloadCuts
  import opened SessionRuns
  import opened SessionGuarantees
  import opened LogsBuffers
  import opened LogSessions

  function Texts(payloads: seq<Payload>): seq<Text> {
    seq(|payloads|, i requires 0 <= i < |payloads| => Text(payloads[i].source, Decode(payloads[i].bytes)))
  }

  /** What the splitter makes of a stream cut into these chunks. */
  function Splits(isDate: DateCheck, chunks: seq<Bytes>): Splitting {
    AbsorbAll(isDate, NOTHING_SPLIT, Texts(HandedAll(Feed(chunks).frames)))
  }

  /** The lines a stream cut into these chunks produces. */
  function StreamLines(isDate: DateCheck, chunks: seq<Bytes>): seq<LogLine> {
    Splits(isDate, chunks).lines
  }

  lemma {:induction false} TextOfParts(payloads: seq<Payload>, source: FrameSource)
    ensures TextOf(Texts(payloads), source) == DecodeEach(PartsOf(payloads, source))
    decreases |payloads|
  {
    if payloads != [] {
      var init, p := payloads[..|payloads| - 1], payloads[|payloads| - 1];
      TextOfParts(init, source);
      assert Texts(payloads)[..|payloads| - 1] == Texts(init);
      if p.source == source {
        DecodeEachSnoc(PartsOf(init, source), p.bytes);
      } else {
        assert PartsOf(init, source) + [] == PartsOf(init, source);
      }
    }
  }

  /** What the splitter was given of a source is what it wrote, frame by frame. */
  lemma {:induction false} TextOfFrames(frames: seq<Frame>, source: FrameSource)
    ensures TextOf(Texts(HandedAll(frames)), source) == DecodeEach(WrittenBy(frames, source))
  {
    TextOfParts(HandedAll(frames), source);
    HandedPerSource(frames, source);
  }

  /**
   Demultiplexing and splitting refine the simple reading: for every interleaving of
   stdout and stderr frames and every chunking of their bytes, the lines of a source
   are the non-empty complete lines of everything that source wrote.
   */
  lemma {:induction false} StreamLinesPerSource(isDate: DateCheck, frames: seq<Frame>,
                                                chunks: seq<Bytes>, source: FrameSource)
    requires Concat(chunks) == EncodeAll(frames)
    ensures From(StreamLines(isDate, chunks), source)
         == LinesOfText(isDate, source, DecodeEach(WrittenBy(frames, source)))
  {
    FramesSurviveChunking(frames, chunks);
    LinesPerSource(isDate, Texts(HandedAll(frames)), source);
    TextOfFrames(frames, source);
  }

  /**
   From bytes to lines: for every interleaving of frames and every chunking, a source whose
   bytes are well-formed UTF-8 is read as the text those bytes encode (its lines, and
   its unfinished line) iff none of its frames starts inside a character.
   */
  lemma {:induction false} StreamIsReadWholeIff(isDate: DateCheck, frames: seq<Frame>,
                                                chunks: seq<Bytes>, source: FrameSource)
    requires Concat(chunks) == EncodeAll(frames)
    requires WellFormed(Glued(WrittenBy(frames, source)))
    ensures var parts := WrittenBy(frames, source);
            var text, st := Decode(Glued(parts)), Splits(isDate, chunks);
            NoCut(parts) <==>
              From(st.lines, source) == LinesOfText(isDate, source, text) && st.partial.Of(source) == Tail(text)
  {
    var parts := WrittenBy(frames, source);
    FramesSurviveChunking(frames, chunks);
    LinesPerSource(isDate, Texts(HandedAll(frames)), source);
    TextOfFrames(frames, source);
    ReadWholeIff(isDate, source, "", parts);
    assert "" + DecodeEach(parts) == DecodeEach(parts) && "" + Decode(Glued(parts)) == Decode(Glued(parts));
  }

  lemma {:induction false} LastDelivered(batches: seq<LogsBatch>)
    requires batches != [] && batches[|batches| - 1].lines != []
    ensures Delivered(batches) != []
    ensures var last := batches[|batches| - 1].lines;
            Delivered(batches)[|Delivered(batches)| - 1] == last[|last| - 1]
  {
  }

  lemma LinesOfAcks(events: seq<Event>, m: nat)
    ensures LinesOf(events + [SourceEnded] + Acks(m)) == LinesOf(events)
    decreases m
  {
    var all := events + [SourceEnded] + Acks(m);
    if m == 0 {
      assert all[..|all| - 1] == events;
    } else {
      assert all[..|all| - 1] == events + [SourceEnded] + Acks(m - 1);
      LinesOfAcks(events, m - 1);
    }
  }

  lemma LastBatchIsNewest(o: Options, pushed: seq<LogLine>, batches: seq<LogsBatch>)
    requires GapExact(pushed, batches) && Covered(batches) == |pushed| && pushed != []
    requires forall b <- batches :: Proper(o, b)
    ensures var shown := Delivered(batches);
            shown != [] && shown[|shown| - 1] == pushed[|pushed| - 1]
  {
    assert Proper(o, batches[|batches| - 1]);
    LastDelivered(batches);
  }

  /** The session after the end of its source and the acknowledgements that are then outstanding. */
  function Drained(o: Options, events: seq<Event>): World {
    Run(o, NEW_SESSION, events + [SourceEnded] + Acks(AcksLeft(o, Run(o, NEW_SESSION, events))))
  }

  lemma {:induction false} DrainedIsAccounted(o: Options, events: seq<Event>)
    requires Graceful(events) && !Run(o, NEW_SESSION, events).closed
    ensures var w := Drained(o, events);
            && w.closed && w.closings == 1
            && Sound(o, w)
            && w.pushed == LinesOf(events) && Covered(w.batches) == |LinesOf(events)|
            && forall b <- w.batches :: Proper(o, b)
  {
    var acks := AcksLeft(o, Run(o, NEW_SESSION, events));
    var all := events + [SourceEnded] + Acks(acks);
    EndDrainsEverything(o, events, acks);
    RunSound(o, all);
    AcceptedLines(o, all);
    LinesOfAcks(events, acks);
    BatchesAreProper(o, all);
  }

  /**
   End to end: take any chunking of a stream's bytes, let its lines reach the session in
   any interleaving with acknowledgements, and let the stream end. Once the outstanding
   acknowledgements are in, the lines on screen plus the count of missing ones are all
   the lines of the stream, the screen holds the newest delivered lines, and its last
   line is the stream's last line.
   */
  lemma {:induction false} NothingMissesUncounted(o: Options, isDate: DateCheck,
                                                  chunks: seq<Bytes>, events: seq<Event>, max: nat)
    requires LinesOf(events) == StreamLines(isDate, chunks)
    requires Graceful(events) && !Run(o, NEW_SESSION, events).closed
    ensures var w := Drained(o, events);
            var buffer := AppendAll(w.batches, max);
            var lines := StreamLines(isDate, chunks);
            && w.closed && w.closings == 1
            && buffer.dropped + |buffer.lines| == |lines|
            && buffer.lines == Last(Delivered(w.batches), max)
            && (0 < max && lines != [] ==>
                  buffer.lines != [] && buffer.lines[|buffer.lines| - 1] == lines[|lines| - 1])
  {
    var w := Drained(o, events);
    DrainedIsAccounted(o, events);
    BufferShowsNewest(w.batches, max);
    LastOfNonEmpty(Delivered(w.batches), max);
    if w.pushed != [] {
      LastBatchIsNewest(o, w.pushed, w.batches);
    }
  }

  // ----- a source that respects pause()

  /** The end and the acknowledgements after it bring no line. */
  lemma {:induction false} StaysRespectful(o: Options, w: World, events: seq<Event>, headroom: nat, m: nat)
    requires Respectful(o, w, events, headroom)
    ensures Respectful(o, w, events + [SourceEnded] + Acks(m), headroom)
    decreases m
  {
    var all := events + [SourceEnded] + Acks(m);
    if m == 0 {
      assert all[..|all| - 1] == events;
    } else {
      assert all[..|all| - 1] == events + [SourceEnded] + Acks(m - 1);
      StaysRespectful(o, w, events, headroom, m - 1);
    }
  }

  lemma {:induction false} DrainedIsLossless(o: Options, src: SourceId, events: seq<Event>)
    requires o.highWater <= o.maxQueue
    requires Respectful(o, Attach(NEW_SESSION, src), events, o.maxQueue - o.highWater)
    ensures Lossless(Drained(o, [Attached(src)] + events))
  {
    var before := [Attached(src)] + events;
    var acks := AcksLeft(o, Run(o, NEW_SESSION, before));
    assert before + [SourceEnded] + Acks(acks) == [Attached(src)] + (events + [SourceEnded] + Acks(acks));
    StaysRespectful(o, Attach(NEW_SESSION, src), events, o.maxQueue - o.highWater, acks);
    EverythingIsDelivered(o, src, events + [SourceEnded] + Acks(acks));
  }

  /**
   End to end without loss: when besides the source respects `pause()`, every line of the
   stream is delivered, in order, and the screen shows the stream's last `max` lines.
   */
  lemma {:induction false} NothingIsMissed(o: Options, isDate: DateCheck, src: SourceId,
                                           chunks: seq<Bytes>, events: seq<Event>, max: nat)
    requires o.highWater <= o.maxQueue
    requires Respectful(o, Attach(NEW_SESSION, src), events, o.maxQueue - o.highWater)
    requires LinesOf(events) == StreamLines(isDate, chunks)
    requires Graceful(events) && !Run(o, NEW_SESSION, [Attached(src)] + events).closed
    ensures var w := Drained(o, [Attached(src)] + events);
            var buffer, lines := AppendAll(w.batches, max), StreamLines(isDate, chunks);
            && w.closed && w.closings == 1
            && Delivered(w.batches) == lines
            && buffer.lines == Last(lines, max)
            && buffer.dropped == |lines| - |buffer.lines|
  {
    var w := Drained(o, [Attached(src)] + events);
    DrainedIsAccounted(o, [Attached(src)] + events);
    DrainedIsLossless(o, src, events);
    LinesAfterAttach(src, events);
    DeliveredIsCovered(w.pushed, w.batches);
    BufferShowsNewest(w.batches, max);
  }

  lemma {:induction false} LinesAfterAttach(src: SourceId, events: seq<Event>)
    ensures LinesOf([Attached(src)] + events) == LinesOf(events)
    decreases |events|
  {
    var all := [Attached(src)] + events;
    if events == [] {
      assert all[..0] == [];
    } else {
      assert all[..|all| - 1] == [Attached(src)] + events[..|events| - 1];
      LinesAfterAttach(src, events[..|events| - 1]);
    }
  }

  // ----- the wiring of one stream

  /** The splitter has absorbed exactly what the parser handed over. */
  ghost predicate Wired(parser: DockerFrameParser, splitter: LogLineSplitter)
    reads parser, splitter
  {
    splitter.State() == AbsorbAll(splitter.isDate, NOTHING_SPLIT, Texts(parser.handed))
  }

  method PushLines(session: LogSession, lines: seq<LogLine>)
    requires session.Valid()
    modifies session
    ensures session.Valid()
    ensures session.World() == Run(session.options, old(session.World()), Lines(lines))
  {
    for i := 0 to |lines|
      invariant session.Valid()
      invariant session.World() == Run(session.options, old(session.World()), Lines(lines[..i]))
    {
      assert Lines(lines[..i + 1])[..i] == Lines(lines[..i]);
      session.Push(lines[i]);
    }
    assert lines[..|lines|] == lines;
  }

  /** The lines the splitter emits for one payload go straight to the session. */
  method OnPayload(splitter: LogLineSplitter, session: LogSession, payload: Payload)
    requires session.Valid()
    modifies splitter, session
    ensures session.Valid()
    ensures splitter.State()
         == Absorb(splitter.isDate, old(splitter.State()), Text(payload.source, Decode(payload.bytes)))
    ensures old(splitter.emitted) <= splitter.emitted
    ensures session.World()
         == Run(session.options, old(session.World()), Lines(splitter.emitted[|old(splitter.emitted)|..]))
  {
    var known := |splitter.emitted|;
    splitter.Push(payload.source, payload.bytes);
    PushLines(session, splitter.emitted[known..]);
  }

  method OnPayloads(splitter: LogLineSplitter, session: LogSession, payloads: seq<Payload>)
    requires session.Valid()
    modifies splitter, session
    ensures session.Valid()
    ensures splitter.State() == AbsorbAll(splitter.isDate, old(splitter.State()), Texts(payloads))
    ensures old(splitter.emitted) <= splitter.emitted
    ensures session.World()
         == Run(session.options, old(session.World()), Lines(splitter.emitted[|old(splitter.emitted)|..]))
  {
    ghost var world, known := session.World(), |splitter.emitted|;
    for i := 0 to |payloads|
      invariant session.Valid()
      invariant splitter.State()
             == AbsorbAll(splitter.isDate, old(splitter.State()), Texts(payloads[..i]))
      invariant old(splitter.emitted) <= splitter.emitted
      invariant session.World() == Run(session.options, world, Lines(splitter.emitted[known..]))
    {
      ghost var before := splitter.emitted;
      assert Texts(payloads[..i + 1])[..i] == Texts(payloads[..i]);
      OnPayload(splitter, session, payloads[i]);
      LinesSplit(session.options, world, before, splitter.emitted, known);
    }
    assert payloads[..|payloads|] == payloads;
  }

  /** A chunk arrives: its frames are parsed, their lines split, and each line pushed, all in one segment. */
  method OnData(parser: DockerFrameParser, splitter: LogLineSplitter, session: LogSession, chunk: Bytes)
    requires parser.Valid() && session.Valid() && Wired(parser, splitter)
    modifies parser, splitter, session
    ensures parser.Valid() && session.Valid() && Wired(parser, splitter)
    ensures parser.received == old(parser.received) + chunk
    ensures old(splitter.emitted) <= splitter.emitted
    ensures session.World()
         == Run(session.options, old(session.World()), Lines(splitter.emitted[|old(splitter.emitted)|..]))
  {
    var before := parser.handed;
    parser.Push(chunk);
    var news := parser.handed[|before|..];
    assert parser.handed == before + news;
    AbsorbMore(splitter.isDate, before, news);
    OnPayloads(splitter, session, news);
  }

  lemma TextsConcat(a: seq<Payload>, b: seq<Payload>)
    ensures Texts(a + b) == Texts(a) + Texts(b)
  {
  }

  lemma {:induction false} AbsorbMore(isDate: DateCheck, before: seq<Payload>, news: seq<Payload>)
    ensures AbsorbAll(isDate, NOTHING_SPLIT, Texts(before + news))
         == AbsorbAll(isDate, AbsorbAll(isDate, NOTHING_SPLIT, Texts(before)), Texts(news))
  {
    AbsorbSplit(isDate, NOTHING_SPLIT, Texts(before), Texts(news));
    TextsConcat(before, news);
  }

  lemma {:induction false} LinesSplit(o: Options, w: World, before: seq<LogLine>, after: seq<LogLine>, known: nat)
    requires known <= |before| && before <= after
    ensures Run(o, Run(o, w, Lines(before[known..])), Lines(after[|before|..])) == Run(o, w, Lines(after[known..]))
  {
    assert after[known..] == before[known..] + after[|before|..];
    assert Lines(after[known..]) == Lines(before[known..]) + Lines(after[|before|..]);
    RunSplit(o, w, Lines(before[known..]), Lines(after[|before|..]));
  }
}
