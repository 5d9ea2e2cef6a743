/**
 Docker's multiplexed log stream: frames `[type, 0, 0, 0, length (4 bytes, big endian), payload]`.
 `Parse` is what the parser has produced and kept once it has seen a stream of bytes.
 */
module Frames {
  import opened Basics
  import opened LogTypes

  const HEADER := 8
  const MAX_PAYLOAD := 0x1_0000_0000

  /** A frame as it travels. The parser looks neither at the padding nor at types other than 2. */
  datatype FrameParts = FrameParts(kind: byte, padding: Bytes, payload: Bytes)
  type Frame = f: FrameParts | |f.padding| == 3 && |f.payload| < MAX_PAYLOAD witness FrameParts(1, [0, 0, 0], [])

  /** What the parser hands over for a frame. */
  datatype Payload = Payload(source: FrameSource, bytes: Bytes)

  function Handed(f: Frame): Payload {
    Payload(if f.kind == 2 then Stderr else Stdout, f.payload)
  }

  function HandedAll(frames: seq<Frame>): seq<Payload> {
    seq(|frames|, i requires 0 <= i < |frames| => Handed(frames[i]))
  }

  function BigEndian(n: nat): Bytes
    requires n < MAX_PAYLOAD
  {
    [n / 0x100 / 0x100 / 0x100, n / 0x100 / 0x100 % 0x100, n / 0x100 % 0x100, n % 0x100]
  }

  function Word(a: byte, b: byte, c: byte, d: byte): nat {
    var ab: int := 0x100 * a as int + b as int;
    var abc: int := 0x100 * ab + c as int;
    0x100 * abc + d as int
  }

  lemma WordFits(a: byte, b: byte, c: byte, d: byte)
    ensures Word(a, b, c, d) < MAX_PAYLOAD
    ensures BigEndian(Word(a, b, c, d)) == [a, b, c, d]
  {
    var ab: int := 0x100 * a as int + b as int;
    var abc: int := 0x100 * ab + c as int;
    DigitsOf(abc, d);
    DigitsOf(ab, c);
    DigitsOf(a, b);
  }

  lemma DigitsOf(high: int, low: byte)
    ensures (0x100 * high + low as int) / 0x100 == high
    ensures (0x100 * high + low as int) % 0x100 == low
  {
  }

  lemma WordOfBigEndian(n: nat)
    requires n < MAX_PAYLOAD
    ensures Word(BigEndian(n)[0], BigEndian(n)[1], BigEndian(n)[2], BigEndian(n)[3]) == n
  {
  }

  function ReadSize(buffer: Bytes): (n: nat)
    requires HEADER <= |buffer|
    ensures n < MAX_PAYLOAD
  {
    WordFits(buffer[4], buffer[5], buffer[6], buffer[7]);
    Word(buffer[4], buffer[5], buffer[6], buffer[7])
  }

  function Encode(f: Frame): Bytes {
    [f.kind] + f.padding + BigEndian(|f.payload|) + f.payload
  }

  function EncodeAll(frames: seq<Frame>): Bytes {
    if frames == [] then [] else Encode(frames[0]) + EncodeAll(frames[1..])
  }

  /** The buffer starts with a whole frame. */
  predicate HasFrame(buffer: Bytes) {
    HEADER <= |buffer| && HEADER + ReadSize(buffer) <= |buffer|
  }

  function FirstFrame(buffer: Bytes): Frame
    requires HasFrame(buffer)
  {
    FrameParts(buffer[0], buffer[1..4], buffer[HEADER..HEADER + ReadSize(buffer)])
  }

  function AfterFirst(buffer: Bytes): Bytes
    requires HasFrame(buffer)
  {
    buffer[HEADER + ReadSize(buffer)..]
  }

  datatype Parsed = Parsed(frames: seq<Frame>, rest: Bytes)

  function Parse(buffer: Bytes): Parsed
    decreases |buffer|
  {
    if !HasFrame(buffer) then Parsed([], buffer)
    else
      var more := Parse(AfterFirst(buffer));
      Parsed([FirstFrame(buffer)] + more.frames, more.rest)
  }

  /** The parser's state and output after a list of chunks. */
  function Feed(chunks: seq<Bytes>): Parsed
    decreases |chunks|
  {
    if chunks == [] then Parsed([], [])
    else
      var before := Feed(chunks[..|chunks| - 1]);
      var now := Parse(before.rest + chunks[|chunks| - 1]);
      Parsed(before.frames + now.frames, now.rest)
  }

  function Concat(chunks: seq<Bytes>): Bytes
    decreases |chunks|
  {
    if chunks == [] then [] else Concat(chunks[..|chunks| - 1]) + chunks[|chunks| - 1]
  }

  // ----- independence of the chunking

  lemma {:induction false} ParseAppend(a: Bytes, b: Bytes)
    ensures Parse(a + b).frames == Parse(a).frames + Parse(Parse(a).rest + b).frames
    ensures Parse(a + b).rest == Parse(Parse(a).rest + b).rest
    decreases |a|
  {
    if HasFrame(a) {
      assert ReadSize(a + b) == ReadSize(a);
      assert AfterFirst(a + b) == AfterFirst(a) + b;
      assert FirstFrame(a + b) == FirstFrame(a);
      ParseAppend(AfterFirst(a), b);
    }
  }

  /** However the bytes are cut into chunks, the frames and the bytes kept back are those of the whole stream. */
  lemma {:induction false} ChunkingIsInvisible(chunks: seq<Bytes>)
    ensures Feed(chunks) == Parse(Concat(chunks))
    decreases |chunks|
  {
    if chunks != [] {
      var init, last := chunks[..|chunks| - 1], chunks[|chunks| - 1];
      ChunkingIsInvisible(init);
      ParseAppend(Concat(init), last);
    }
  }

  // ----- parsing inverts encoding

  lemma SizeInHeader(f: Frame, rest: Bytes)
    ensures HasFrame(Encode(f) + rest)
    ensures ReadSize(Encode(f) + rest) == |f.payload|
  {
    var buffer := Encode(f) + rest;
    assert buffer[4..8] == BigEndian(|f.payload|);
    assert buffer[4] == buffer[4..8][0] && buffer[5] == buffer[4..8][1]
        && buffer[6] == buffer[4..8][2] && buffer[7] == buffer[4..8][3];
    WordOfBigEndian(|f.payload|);
  }

  lemma FirstOfEncoded(f: Frame, rest: Bytes)
    ensures HasFrame(Encode(f) + rest)
    ensures FirstFrame(Encode(f) + rest) == f
    ensures AfterFirst(Encode(f) + rest) == rest
  {
    SizeInHeader(f, rest);
    var buffer := Encode(f) + rest;
    assert buffer[1..4] == f.padding;
    assert buffer[HEADER..HEADER + |f.payload|] == f.payload;
  }

  /** Any list of frames, followed by any unfinished one, comes back as it was. */
  lemma {:induction false} ParseOfEncoded(frames: seq<Frame>, rest: Bytes)
    requires !HasFrame(rest)
    ensures Parse(EncodeAll(frames) + rest) == Parsed(frames, rest)
    decreases |frames|
  {
    if frames == [] {
      assert EncodeAll(frames) + rest == rest;
    } else {
      var more := EncodeAll(frames[1..]) + rest;
      assert EncodeAll(frames) + rest == Encode(frames[0]) + more;
      FirstOfEncoded(frames[0], more);
      ParseOfEncoded(frames[1..], rest);
    }
  }

  lemma {:induction false} EncodeOfFirst(buffer: Bytes)
    requires HasFrame(buffer)
    ensures buffer == Encode(FirstFrame(buffer)) + AfterFirst(buffer)
  {
    var n := ReadSize(buffer);
    BigEndianOfSize(buffer);
    assert buffer == [buffer[0]] + buffer[1..4] + buffer[4..8] + buffer[8..8 + n] + buffer[8 + n..];
  }

  lemma {:induction false} BigEndianOfSize(buffer: Bytes)
    requires HEADER <= |buffer|
    ensures BigEndian(ReadSize(buffer)) == buffer[4..8]
  {
    WordFits(buffer[4], buffer[5], buffer[6], buffer[7]);
  }

  lemma {:induction false} EncodeAllCons(f: Frame, more: seq<Frame>)
    ensures EncodeAll([f] + more) == Encode(f) + EncodeAll(more)
  {
    assert ([f] + more)[1..] == more;
  }

  /** On any stream, the frames and the kept bytes are the stream itself, and what is kept is no whole frame. */
  lemma {:induction false} EncodeOfParsed(buffer: Bytes)
    ensures EncodeAll(Parse(buffer).frames) + Parse(buffer).rest == buffer
    ensures !HasFrame(Parse(buffer).rest)
    decreases |buffer|
  {
    if HasFrame(buffer) {
      var first, after := FirstFrame(buffer), AfterFirst(buffer);
      var more := Parse(after);
      EncodeOfFirst(buffer);
      EncodeOfParsed(after);
      EncodeAllCons(first, more.frames);
      Associative(Encode(first), EncodeAll(more.frames), more.rest);
    } else {
      assert EncodeAll([]) + buffer == buffer;
    }
  }

  /**
   For every list of frames and every split of their bytes into chunks, the parser
   yields exactly those frames, in order, and keeps nothing.
   */
  lemma FramesSurviveChunking(frames: seq<Frame>, chunks: seq<Bytes>)
    requires Concat(chunks) == EncodeAll(frames)
    ensures Feed(chunks) == Parsed(frames, [])
  {
    ChunkingIsInvisible(chunks);
    ParseOfEncoded(frames, []);
    assert EncodeAll(frames) + [] == EncodeAll(frames);
  }

  // ----- which source wrote what

  /** What a source wrote: stderr the payloads of the frames of kind 2, stdout those of all others. */
  function WrittenBy(frames: seq<Frame>, source: FrameSource): seq<Bytes> {
    if frames == [] then []
    else
      var f := frames[|frames| - 1];
      WrittenBy(frames[..|frames| - 1], source) + if f.kind == 2 <==> source == Stderr then [f.payload] else []
  }

  /** What was handed over as coming from a source. */
  function PartsOf(payloads: seq<Payload>, source: FrameSource): seq<Bytes> {
    if payloads == [] then []
    else
      var p := payloads[|payloads| - 1];
      PartsOf(payloads[..|payloads| - 1], source) + if p.source == source then [p.bytes] else []
  }

  /** Each source is handed what it wrote. */
  lemma {:induction false} HandedPerSource(frames: seq<Frame>, source: FrameSource)
    ensures PartsOf(HandedAll(frames), source) == WrittenBy(frames, source)
    decreases |frames|
  {
    if frames != [] {
      var init := frames[..|frames| - 1];
      HandedPerSource(init, source);
      assert HandedAll(frames)[..|frames| - 1] == HandedAll(init);
    }
  }

  /** A frame's header and payload, byte by byte. */
  lemma {:induction false} OneFrame(kind: byte, x: byte, y: byte, z: byte, size: Bytes, payload: Bytes)
    requires |size| == 4
    requires |payload|
          == 0x100_0000 * size[0] as int + 0x1_0000 * size[1] as int + 0x100 * size[2] as int + size[3] as int
    ensures var parsed := Parse([kind, x, y, z] + size + payload);
            && parsed.rest == []
            && WrittenBy(parsed.frames, if kind == 2 then Stderr else Stdout) == [payload]
            && WrittenBy(parsed.frames, if kind == 2 then Stdout else Stderr) == []
            && PartsOf(HandedAll(parsed.frames), if kind == 2 then Stderr else Stdout) == [payload]
  {
    var bytes := [kind, x, y, z] + size + payload;
    assert bytes[4..8] == size;
    assert bytes[4] == size[0] && bytes[5] == size[1] && bytes[6] == size[2] && bytes[7] == size[3];
    assert ReadSize(bytes) == |payload|;
    assert FirstFrame(bytes).payload == payload && AfterFirst(bytes) == [];
    assert Parse(bytes).frames == [FirstFrame(bytes)];
    assert [FirstFrame(bytes)][..0] == [];
    HandedPerSource(Parse(bytes).frames, if kind == 2 then Stderr else Stdout);
  }

  // ----- the parser

  lemma HandedCons(handed: seq<Payload>, f: Frame, more: seq<Frame>)
    ensures handed + HandedAll([f] + more) == handed + [Handed(f)] + HandedAll(more)
  {
    HandedConcat([f], more);
    assert HandedAll([f]) == [Handed(f)];
  }

  lemma HandedConcat(a: seq<Frame>, b: seq<Frame>)
    ensures HandedAll(a + b) == HandedAll(a) + HandedAll(b)
  {
  }

  class DockerFrameParser {
    var buffer: Bytes
    // what went to the onPayload callback
    var handed: seq<Payload>
    // every byte received
    ghost var received: Bytes

    /** Handed over and kept: exactly what the whole stream so far parses to. */
    ghost predicate Valid()
      reads this
    {
      handed == HandedAll(Parse(received).frames) && buffer == Parse(received).rest
    }

    constructor ()
      ensures Valid() && received == [] && handed == [] && buffer == []
    {
      buffer, handed, received := [], [], [];
    }

    method Push(chunk: Bytes)
      requires Valid()
      modifies this
      ensures Valid()
      ensures received == old(received) + chunk
      ensures handed == old(handed) + HandedAll(Parse(old(buffer) + chunk).frames)
      ensures forall source :: PartsOf(handed, source) == WrittenBy(Parse(received).frames, source)
    {
      ghost var all := Parse(buffer + chunk);
      ParseAppend(received, chunk);
      HandedConcat(Parse(received).frames, all.frames);
      received := received + chunk;
      buffer := if |buffer| == 0 then chunk else buffer + chunk;
      assert buffer == old(buffer) + chunk;
      while |buffer| >= HEADER
        invariant handed + HandedAll(Parse(buffer).frames) == old(handed) + HandedAll(all.frames)
        invariant Parse(buffer).rest == all.rest
        invariant received == old(received) + chunk
        decreases |buffer|
      {
        var size := ReadSize(buffer);
        if |buffer| < HEADER + size {
          break;
        }
        HandedCons(handed, FirstFrame(buffer), Parse(AfterFirst(buffer)).frames);
        var kind := buffer[0];
        var payload := buffer[HEADER..HEADER + size];
        buffer := buffer[HEADER + size..];
        handed := handed + [Payload(if kind == 2 then Stderr else Stdout, payload)];
      }
      assert handed + HandedAll([]) == handed;
      forall source ensures PartsOf(handed, source) == WrittenBy(Parse(received).frames, source) {
        HandedPerSource(Parse(received).frames, source);
      }
    }
  }
}
