/**
 From payloads to log lines: the text of each source is cut at its newlines, one
 trailing carriage return is taken off every complete line, empty lines are skipped,
 and Docker's timestamp is told apart from the text.

 Which strings are dates is a parameter.
 */
module LogLines {
  import opened Basics
  import opened LogTypes
  import Utf8

  type DateCheck = string -> bool

  /** Position of the first `c`, or the length. */
  function IndexOf(s: string, c: char): (i: nat)
    ensures i <= |s| && c !in s[..i]
    ensures i < |s| ==> s[i] == c
  {
    if s == [] || s[0] == c then 0 else 1 + IndexOf(s[1..], c)
  }

  // ----- text.split("\n")

  function Split(text: string): (pieces: seq<string>)
    ensures 1 <= |pieces|
    decreases |text|
  {
    var i := IndexOf(text, '\n');
    if i == |text| then [text] else [text[..i]] + Split(text[i + 1..])
  }

  function Join(pieces: seq<string>): string
    requires 1 <= |pieces|
  {
    if |pieces| == 1 then pieces[0] else pieces[0] + "\n" + Join(pieces[1..])
  }

  /** The complete lines of a text, and what follows its last newline. */
  function Whole(text: string): seq<string> {
    var pieces := Split(text);
    pieces[..|pieces| - 1]
  }

  function Tail(text: string): string {
    var pieces := Split(text);
    pieces[|pieces| - 1]
  }

  lemma {:induction false} IndexOfUnique(s: string, c: char, i: nat)
    requires i <= |s| && c !in s[..i] && (i < |s| ==> s[i] == c)
    ensures IndexOf(s, c) == i
    decreases i
  {
    if i > 0 {
      assert s[0] == s[..i][0];
      assert s[1..][..i - 1] == s[..i][1..];
      IndexOfUnique(s[1..], c, i - 1);
    }
  }

  /** Splitting is the inverse of joining with newlines: it is the only way to cut a text at all of them. */
  lemma {:induction false} SplitOfJoined(pieces: seq<string>)
    requires 1 <= |pieces|
    requires forall p <- pieces :: '\n' !in p
    ensures Split(Join(pieces)) == pieces
    decreases |pieces|
  {
    var text := Join(pieces);
    assert pieces[0] in pieces;
    if |pieces| == 1 {
      IndexOfUnique(text, '\n', |text|);
      assert pieces == [text];
    } else {
      var i := |pieces[0]|;
      assert text[..i] == pieces[0] && text[i] == '\n';
      IndexOfUnique(text, '\n', i);
      assert text[i + 1..] == Join(pieces[1..]);
      SplitOfJoined(pieces[1..]);
    }
  }

  lemma {:induction false} JoinOfSplit(text: string)
    ensures Join(Split(text)) == text
    decreases |text|
  {
    var i := IndexOf(text, '\n');
    if i < |text| {
      JoinOfSplit(text[i + 1..]);
      assert Split(text)[1..] == Split(text[i + 1..]);
      assert text == text[..i] + "\n" + text[i + 1..];
    }
  }

  /** What is kept back is exactly the text after the last newline. */
  lemma {:induction false} TailIsAfterLastNewline(text: string)
    ensures var n := |text| - |Tail(text)|;
            && 0 <= n
            && text[n..] == Tail(text)
            && '\n' !in Tail(text)
            && (0 < n ==> text[n - 1] == '\n')
    decreases |text|
  {
    var i := IndexOf(text, '\n');
    if i == |text| {
      assert text[..i] == text;
    } else {
      var rest := text[i + 1..];
      TailIsAfterLastNewline(rest);
      var n := |rest| - |Tail(rest)|;
      assert Tail(text) == Tail(rest) == rest[n..] == text[i + 1 + n..];
    }
  }

  lemma {:induction false} AtFirstNewline(text: string, i: nat)
    requires i < |text| && i == IndexOf(text, '\n')
    ensures Whole(text) == [text[..i]] + Whole(text[i + 1..])
    ensures Tail(text) == Tail(text[i + 1..])
  {
    var first, rest := text[..i], Split(text[i + 1..]);
    assert Split(text) == [first] + rest;
    assert ([first] + rest)[..|rest|] == [first] + rest[..|rest| - 1];
  }

  lemma {:induction false} SplitAppend(a: string, b: string)
    ensures Whole(a + b) == Whole(a) + Whole(Tail(a) + b)
    ensures Tail(a + b) == Tail(Tail(a) + b)
    decreases |a|
  {
    var i := IndexOf(a, '\n');
    if i == |a| {
      NoNewline(a);
    } else {
      assert (a + b)[..i] == a[..i];
      IndexOfUnique(a + b, '\n', i);
      assert (a + b)[i + 1..] == a[i + 1..] + b;
      SplitAppend(a[i + 1..], b);
      AtFirstNewline(a, i);
      AtFirstNewline(a + b, i);
    }
  }

  lemma {:induction false} NoNewline(text: string)
    requires '\n' !in text
    ensures Whole(text) == [] && Tail(text) == text
  {
    IndexOfUnique(text, '\n', |text|);
  }

  // ----- parseDockerLine

  function ParseDockerLine(isDate: DateCheck, source: FrameSource, raw: string): LogLine {
    var idx := IndexOf(raw, ' ');
    if 0 < idx < |raw| && isDate(raw[..idx]) then LogLine(Docker(raw[..idx]), source, raw[idx + 1..])
    else LogLine(ServerClock, source, raw)
  }

  /** The raw line a parsed one stands for. */
  function Shown(line: LogLine): string {
    match line.ts
    case Docker(ts) => ts + " " + line.text
    case ServerClock => line.text
  }

  /** No character of a line is lost by parsing it. */
  lemma {:induction false} ParsedShowsTheRawLine(isDate: DateCheck, source: FrameSource, raw: string)
    ensures Shown(ParseDockerLine(isDate, source, raw)) == raw
  {
    var idx := IndexOf(raw, ' ');
    if idx < |raw| {
      assert raw == raw[..idx] + " " + raw[idx + 1..];
    }
  }

  /** Timestamp and text come back exactly when the timestamp is a date in one word. */
  lemma TimestampComesBack(isDate: DateCheck, source: FrameSource, ts: string, text: string)
    ensures ParseDockerLine(isDate, source, ts + " " + text) == LogLine(Docker(ts), source, text)
       <==> ts != "" && ' ' !in ts && isDate(ts)
  {
    var raw := ts + " " + text;
    var idx := IndexOf(raw, ' ');
    if ' ' !in ts {
      assert raw[..|ts|] == ts;
      IndexOfUnique(raw, ' ', |ts|);
      assert raw[|ts| + 1..] == text;
    }
  }

  // ----- lines of one source

  function Clean(raw: string): string {
    if raw != "" && raw[|raw| - 1] == '\r' then raw[..|raw| - 1] else raw
  }

  /** Exactly one trailing carriage return is taken off, and nothing else. */
  lemma CleanTakesOneReturn(raw: string)
    ensures Clean(raw + "\r") == raw
    ensures Clean(raw) == raw || Clean(raw) + "\r" == raw
    ensures Clean(raw) == raw <==> raw == "" || raw[|raw| - 1] != '\r'
  {
    assert raw != "" ==> raw == raw[..|raw| - 1] + [raw[|raw| - 1]];
  }

  function LineOf(isDate: DateCheck, source: FrameSource, raw: string): seq<LogLine> {
    var clean := Clean(raw);
    if |clean| > 0 then [ParseDockerLine(isDate, source, clean)] else []
  }

  function LinesFrom(isDate: DateCheck, source: FrameSource, pieces: seq<string>): seq<LogLine> {
    if pieces == [] then []
    else LinesFrom(isDate, source, pieces[..|pieces| - 1]) + LineOf(isDate, source, pieces[|pieces| - 1])
  }

  /** What a reader of one source's whole text expects: its non-empty complete lines. */
  function LinesOfText(isDate: DateCheck, source: FrameSource, text: string): seq<LogLine> {
    LinesFrom(isDate, source, Whole(text))
  }

  predicate IsBlank(raw: string) {
    raw == "" || raw == "\r"
  }

  /** The lines without their trailing carriage return, blank ones left out. */
  function NonBlank(pieces: seq<string>): seq<string> {
    if pieces == [] then []
    else
      var last := pieces[|pieces| - 1];
      NonBlank(pieces[..|pieces| - 1]) + if IsBlank(last) then [] else [Clean(last)]
  }

  function ShownAll(lines: seq<LogLine>): seq<string> {
    seq(|lines|, i requires 0 <= i < |lines| => Shown(lines[i]))
  }

  ghost predicate AllOf(lines: seq<LogLine>, source: FrameSource) {
    forall line <- lines :: Shown(line) != "" && line.source == source
  }

  lemma {:induction false} OneLineShows(isDate: DateCheck, source: FrameSource, raw: string)
    ensures ShownAll(LineOf(isDate, source, raw)) == if IsBlank(raw) then [] else [Clean(raw)]
    ensures AllOf(LineOf(isDate, source, raw), source)
  {
    assert Clean(raw) == "" <==> IsBlank(raw);
    ParsedShowsTheRawLine(isDate, source, Clean(raw));
  }

  lemma ShownAllConcat(a: seq<LogLine>, b: seq<LogLine>)
    ensures ShownAll(a + b) == ShownAll(a) + ShownAll(b)
  {
  }

  /** A text shows as its complete lines, in order, each with its own characters; blank ones do not show. */
  lemma {:induction false} BlankLinesAreSkipped(isDate: DateCheck, source: FrameSource, pieces: seq<string>)
    ensures ShownAll(LinesFrom(isDate, source, pieces)) == NonBlank(pieces)
    ensures AllOf(LinesFrom(isDate, source, pieces), source)
    decreases |pieces|
  {
    if pieces != [] {
      var init, last := pieces[..|pieces| - 1], pieces[|pieces| - 1];
      BlankLinesAreSkipped(isDate, source, init);
      OneLineShows(isDate, source, last);
      ShownAllConcat(LinesFrom(isDate, source, init), LineOf(isDate, source, last));
    }
  }

  lemma {:induction false} LinesFromSnoc(isDate: DateCheck, source: FrameSource, init: seq<string>, last: string)
    ensures LinesFrom(isDate, source, init + [last])
         == LinesFrom(isDate, source, init) + LineOf(isDate, source, last)
  {
    assert (init + [last])[..|init|] == init;
  }

  lemma {:induction false} LinesFromConcat(isDate: DateCheck, source: FrameSource, a: seq<string>, b: seq<string>)
    ensures LinesFrom(isDate, source, a + b) == LinesFrom(isDate, source, a) + LinesFrom(isDate, source, b)
    decreases |b|
  {
    if b == [] {
      assert a + b == a;
    } else {
      var init, last := b[..|b| - 1], b[|b| - 1];
      assert b == init + [last];
      assert a + b == a + init + [last];
      LinesFromSnoc(isDate, source, a + init, last);
      LinesFromSnoc(isDate, source, init, last);
      LinesFromConcat(isDate, source, a, init);
      Associative(LinesFrom(isDate, source, a), LinesFrom(isDate, source, init), LineOf(isDate, source, last));
    }
  }

  // ----- the splitter over both sources

  datatype Text = Text(source: FrameSource, text: string)

  datatype Partial = Partial(stdout: string, stderr: string) {
    function Of(source: FrameSource): string {
      match source case Stdout => stdout case Stderr => stderr
    }

    function With(source: FrameSource, text: string): Partial {
      match source case Stdout => this.(stdout := text) case Stderr => this.(stderr := text)
    }
  }

  datatype Splitting = Splitting(partial: Partial, lines: seq<LogLine>)

  const NOTHING_SPLIT := Splitting(Partial("", ""), [])

  function Absorb(isDate: DateCheck, st: Splitting, t: Text): Splitting {
    var text := st.partial.Of(t.source) + t.text;
    Splitting(st.partial.With(t.source, Tail(text)), st.lines + LinesOfText(isDate, t.source, text))
  }

  function AbsorbAll(isDate: DateCheck, st: Splitting, texts: seq<Text>): Splitting
    decreases |texts|
  {
    if texts == [] then st
    else Absorb(isDate, AbsorbAll(isDate, st, texts[..|texts| - 1]), texts[|texts| - 1])
  }

  lemma {:induction false} AbsorbSplit(isDate: DateCheck, st: Splitting, a: seq<Text>, b: seq<Text>)
    ensures AbsorbAll(isDate, st, a + b) == AbsorbAll(isDate, AbsorbAll(isDate, st, a), b)
    decreases |b|
  {
    if b == [] {
      assert a + b == a;
    } else {
      assert (a + b)[..|a + b| - 1] == a + b[..|b| - 1];
      AbsorbSplit(isDate, st, a, b[..|b| - 1]);
    }
  }

  /** Everything one source wrote. */
  function TextOf(texts: seq<Text>, source: FrameSource): string
    decreases |texts|
  {
    if texts == [] then ""
    else
      var t := texts[|texts| - 1];
      TextOf(texts[..|texts| - 1], source) + if t.source == source then t.text else ""
  }

  /** The lines of one source among the emitted ones. */
  function From(lines: seq<LogLine>, source: FrameSource): seq<LogLine>
    decreases |lines|
  {
    if lines == [] then []
    else
      var l := lines[|lines| - 1];
      From(lines[..|lines| - 1], source) + if l.source == source then [l] else []
  }

  lemma {:induction false} FromConcat(a: seq<LogLine>, b: seq<LogLine>, source: FrameSource)
    ensures From(a + b, source) == From(a, source) + From(b, source)
    decreases |b|
  {
    if b == [] {
      assert a + b == a;
    } else {
      assert (a + b)[..|a + b| - 1] == a + b[..|b| - 1];
      FromConcat(a, b[..|b| - 1], source);
    }
  }

  lemma {:induction false} FromOwnLines(isDate: DateCheck, own: FrameSource, pieces: seq<string>, source: FrameSource)
    ensures From(LinesFrom(isDate, own, pieces), source)
         == if own == source then LinesFrom(isDate, own, pieces) else []
    decreases |pieces|
  {
    if pieces != [] {
      var init := LinesFrom(isDate, own, pieces[..|pieces| - 1]);
      var last := LineOf(isDate, own, pieces[|pieces| - 1]);
      FromOwnLines(isDate, own, pieces[..|pieces| - 1], source);
      FromConcat(init, last, source);
      assert last != [] ==> last[..0] == [] && From(last, source) == if own == source then last else [];
    }
  }

  /**
   However stdout and stderr interleave and however their text is cut into payloads,
   the lines of each source are the lines of that source's text, in order, and what is
   kept for it is its unfinished line.
   */
  lemma {:induction false} LinesPerSource(isDate: DateCheck, texts: seq<Text>, source: FrameSource)
    ensures var st := AbsorbAll(isDate, NOTHING_SPLIT, texts);
            && From(st.lines, source) == LinesOfText(isDate, source, TextOf(texts, source))
            && st.partial.Of(source) == Tail(TextOf(texts, source))
    decreases |texts|
  {
    if texts != [] {
      var init, t := texts[..|texts| - 1], texts[|texts| - 1];
      var before := AbsorbAll(isDate, NOTHING_SPLIT, init);
      LinesPerSource(isDate, init, source);
      var text := before.partial.Of(t.source) + t.text;
      FromConcat(before.lines, LinesOfText(isDate, t.source, text), source);
      FromOwnLines(isDate, t.source, Whole(text), source);
      if t.source == source {
        SplitAppend(TextOf(init, source), t.text);
        LinesFromConcat(isDate, source, Whole(TextOf(init, source)), Whole(text));
      } else {
        assert TextOf(init, source) + "" == TextOf(init, source);
      }
    }
  }

  /** The lines of a text, cut anywhere: those of the first part, then those of its tail and the second part. */
  lemma {:induction false} LinesOfCutText(isDate: DateCheck, source: FrameSource, a: string, b: string)
    ensures LinesOfText(isDate, source, a + b)
         == LinesOfText(isDate, source, a) + LinesOfText(isDate, source, Tail(a) + b)
  {
    SplitAppend(a, b);
    LinesFromConcat(isDate, source, Whole(a), Whole(Tail(a) + b));
  }

  /** Absorbing a text in two parts is absorbing it at once. */
  lemma {:induction false} AbsorbTwice(isDate: DateCheck, st: Splitting, source: FrameSource, x: string, y: string)
    ensures Absorb(isDate, Absorb(isDate, st, Text(source, x)), Text(source, y))
         == Absorb(isDate, st, Text(source, x + y))
  {
    var first := st.partial.Of(source) + x;
    Associative(st.partial.Of(source), x, y);
    SplitAppend(first, y);
    LinesOfCutText(isDate, source, first, y);
    Associative(st.lines, LinesOfText(isDate, source, first), LinesOfText(isDate, source, Tail(first) + y));
  }

  // ----- the splitter

  lemma OneMoreLine(before: seq<LogLine>, isDate: DateCheck, source: FrameSource, lines: seq<string>, i: nat)
    requires i < |lines|
    ensures before + LinesFrom(isDate, source, lines[..i + 1])
         == before + LinesFrom(isDate, source, lines[..i]) + LineOf(isDate, source, lines[i])
  {
    assert lines[..i + 1][..i] == lines[..i];
  }

  class LogLineSplitter {
    const isDate: DateCheck

    var partial: Partial
    // what went to the onLine callback
    var emitted: seq<LogLine>

    ghost function State(): Splitting
      reads this
    {
      Splitting(partial, emitted)
    }

    constructor (isDate: DateCheck)
      ensures State() == NOTHING_SPLIT && this.isDate == isDate
    {
      this.isDate := isDate;
      partial, emitted := Partial("", ""), [];
    }

    method Push(source: FrameSource, payload: Bytes)
      modifies this
      ensures State() == Absorb(isDate, old(State()), Text(source, Utf8.Decode(payload)))
    {
      var text := partial.Of(source) + Utf8.Decode(payload);
      partial := partial.With(source, Tail(text));
      EmitLines(source, Whole(text));
    }

    /** Push's loop over the complete lines. */
    method EmitLines(source: FrameSource, lines: seq<string>)
      modifies this`emitted
      ensures emitted == old(emitted) + LinesFrom(isDate, source, lines)
    {
      for i := 0 to |lines|
        invariant emitted == old(emitted) + LinesFrom(isDate, source, lines[..i])
      {
        OneMoreLine(old(emitted), isDate, source, lines, i);
        var clean := Clean(lines[i]);
        if |clean| > 0 {
          emitted := emitted + [ParseDockerLine(isDate, source, clean)];
        }
      }
      assert lines[..|lines|] == lines;
    }
  }
}
