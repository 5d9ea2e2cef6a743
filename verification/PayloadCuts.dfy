/**
 How a source's bytes are cut into payloads matters exactly when a cut falls inside a
 character, because every payload is decoded on its own.
 */
module PayloadCuts {
  import opened Basics
  import opened LogTypes
  import opened LogLines
  import opened Utf8

  // ----- how many characters a text leaves in its lines and in what is kept

  /** A newline does not show, nor does a carriage return in front of one. */
  function FirstShows(text: string): nat
    requires text != ""
  {
    if text[0] == '\n' || (text[0] == '\r' && |text| > 1 && text[1] == '\n') then 0 else 1
  }

  function Visible(text: string): nat {
    if text == "" then 0 else FirstShows(text) + Visible(text[1..])
  }

  function ShownSize(lines: seq<LogLine>): nat {
    if lines == [] then 0 else ShownSize(lines[..|lines| - 1]) + |Shown(lines[|lines| - 1])|
  }

  lemma {:induction false} ShownSizeConcat(a: seq<LogLine>, b: seq<LogLine>)
    ensures ShownSize(a + b) == ShownSize(a) + ShownSize(b)
    decreases |b|
  {
    if b == [] {
      assert a + b == a;
    } else {
      assert (a + b)[..|a + b| - 1] == a + b[..|b| - 1];
      ShownSizeConcat(a, b[..|b| - 1]);
    }
  }

  /** Parsing a line loses none of its characters. */
  lemma {:induction false} ShownSizeOfLine(isDate: DateCheck, source: FrameSource, raw: string)
    ensures ShownSize(LineOf(isDate, source, raw)) == |Clean(raw)|
  {
    var lines := LineOf(isDate, source, raw);
    if lines != [] {
      ParsedShowsTheRawLine(isDate, source, Clean(raw));
      assert lines[..0] == [];
    }
  }

  lemma {:induction false} VisibleLine(line: string, rest: string)
    requires '\n' !in line
    ensures Visible(line + "\n" + rest) == |Clean(line)| + Visible(rest)
    decreases |line|
  {
    var text := line + "\n" + rest;
    if line == "" {
      assert text[1..] == rest;
    } else {
      assert text[1..] == line[1..] + "\n" + rest;
      VisibleLine(line[1..], rest);
      assert |line| > 1 ==> text[1] == line[1] && line[1] in line;
      assert line[0] in line;
    }
  }

  lemma {:induction false} VisibleTail(text: string)
    requires '\n' !in text
    ensures Visible(text) == |text|
    decreases |text|
  {
    if text != "" {
      VisibleTail(text[1..]);
      assert text[0] in text && (|text| > 1 ==> text[1] in text);
    }
  }

  /** Every visible character is in a line or in the unfinished one. */
  lemma {:induction false} VisibleIsShown(isDate: DateCheck, source: FrameSource, text: string)
    ensures Visible(text) == ShownSize(LinesOfText(isDate, source, text)) + |Tail(text)|
    decreases |text|
  {
    var i := IndexOf(text, '\n');
    if i < |text| {
      var line, rest := text[..i], text[i + 1..];
      assert text == line + "\n" + rest;
      VisibleLine(line, rest);
      VisibleIsShown(isDate, source, rest);
      AtFirstNewline(text, i);
      LinesOfOneAndMore(isDate, source, line, Whole(rest));
      ShownSizeConcat(LineOf(isDate, source, line), LinesOfText(isDate, source, rest));
      ShownSizeOfLine(isDate, source, line);
    } else {
      assert text[..i] == text;
      NoNewline(text);
      VisibleTail(text);
    }
  }

  lemma {:induction false} LinesOfOneAndMore(isDate: DateCheck, source: FrameSource, line: string, more: seq<string>)
    ensures LinesFrom(isDate, source, [line] + more) == LineOf(isDate, source, line) + LinesFrom(isDate, source, more)
  {
    LinesFromConcat(isDate, source, [line], more);
    LinesOfOne(isDate, source, line);
  }

  lemma {:induction false} LinesOfOne(isDate: DateCheck, source: FrameSource, line: string)
    ensures LinesFrom(isDate, source, [line]) == LineOf(isDate, source, line)
  {
    assert [line][..0] == [];
  }

  // ----- damage shows

  lemma {:induction false} VisibleReplacements(k: nat, text: string)
    ensures Visible(Replacements(k) + text) == k + Visible(text)
    decreases k
  {
    if k == 0 {
      assert Replacements(0) + text == text;
    } else {
      assert (Replacements(k) + text)[1..] == Replacements(k - 1) + text;
      VisibleReplacements(k - 1, text);
    }
  }

  /** Newlines stay where they are. */
  lemma FirstOfDamaged(text: string, damage: seq<nat>)
    requires IsDamage(text, damage)
    ensures Damaged(text, damage) == "" <==> text == ""
    ensures text != "" ==> (Damaged(text, damage)[0] == '\n' <==> text[0] == '\n')
  {
  }

  /** A damaged text has more to show than the text. */
  lemma {:induction false} DamageShows(text: string, damage: seq<nat>)
    requires IsDamage(text, damage)
    ensures Visible(Damaged(text, damage)) >= Visible(text)
    ensures Visible(Damaged(text, damage)) == Visible(text) ==> Unharmed(damage)
    decreases |text|
  {
    if text != "" {
      var rest, later := text[1..], damage[1..];
      DamageShows(rest, later);
      var after := Damaged(rest, later);
      if damage[0] == 0 {
        FirstOfDamaged(rest, later);
        assert Damaged(text, damage) == [text[0]] + after;
        assert ([text[0]] + after)[1..] == after;
      } else {
        VisibleReplacements(damage[0], after);
      }
      assert damage == [damage[0]] + later;
    }
  }

  /** Text in front is not damaged. */
  lemma {:induction false} DamageBehind(before: string, text: string, damage: seq<nat>) returns (all: seq<nat>)
    requires IsDamage(text, damage)
    ensures IsDamage(before + text, all) && Damaged(before + text, all) == before + Damaged(text, damage)
    ensures Unharmed(all) <==> Unharmed(damage)
    decreases |before|
  {
    if before == "" {
      assert before + text == text && before + Damaged(text, damage) == Damaged(text, damage);
      return damage;
    }
    var c, rest := before[0], before[1..];
    assert before == [c] + rest;
    var later := DamageBehind(rest, text, damage);
    DamageCons(c, 0, rest + text, later);
    Associative([c], rest, text);
    Associative([c], rest, Damaged(text, damage));
    all := [0] + later;
  }

  /** The two texts leave the same lines and the same unfinished line. */
  predicate SameReading(isDate: DateCheck, source: FrameSource, x: string, y: string) {
    LinesOfText(isDate, source, x) == LinesOfText(isDate, source, y) && Tail(x) == Tail(y)
  }

  /**
   Well-formed bytes in parts, behind any text: what is read is what the whole bytes say iff
   no part starts inside a character.
   */
  lemma ReadWholeIff(isDate: DateCheck, source: FrameSource, before: string, parts: seq<Bytes>)
    requires WellFormed(Glued(parts))
    ensures SameReading(isDate, source, before + DecodeEach(parts), before + Decode(Glued(parts))) <==> NoCut(parts)
  {
    var text := Decode(Glued(parts));
    var damage := DecodeEachIsDamaged(parts);
    var all := DamageBehind(before, text, damage);
    if Unharmed(damage) {
      UnharmedIsSame(text, damage);
    } else {
      DamageShows(before + text, all);
      VisibleIsShown(isDate, source, before + text);
      VisibleIsShown(isDate, source, before + DecodeEach(parts));
    }
  }

  // ----- the splitter

  /** The splitter after payloads of one source. */
  function Payloads(isDate: DateCheck, st: Splitting, source: FrameSource, parts: seq<Bytes>): Splitting {
    AbsorbAll(isDate, st, seq(|parts|, i requires 0 <= i < |parts| => Text(source, Decode(parts[i]))))
  }

  lemma {:induction false} OneMorePayload(isDate: DateCheck, st: Splitting, source: FrameSource,
                                          init: seq<Bytes>, last: Bytes)
    ensures Payloads(isDate, st, source, init + [last])
         == Absorb(isDate, Payloads(isDate, st, source, init), Text(source, Decode(last)))
  {
    var parts := init + [last];
    var texts := seq(|parts|, i requires 0 <= i < |parts| => Text(source, Decode(parts[i])));
    assert texts[..|texts| - 1] == seq(|init|, i requires 0 <= i < |init| => Text(source, Decode(init[i])));
  }

  lemma {:induction false} PayloadsAreOneText(isDate: DateCheck, st: Splitting, source: FrameSource, parts: seq<Bytes>)
    requires parts != []
    ensures Payloads(isDate, st, source, parts) == Absorb(isDate, st, Text(source, DecodeEach(parts)))
    decreases |parts|
  {
    var init, last := parts[..|parts| - 1], parts[|parts| - 1];
    assert parts == init + [last];
    OneMorePayload(isDate, st, source, init, last);
    DecodeEachSnoc(init, last);
    if init == [] {
      assert "" + Decode(last) == Decode(last);
    } else {
      PayloadsAreOneText(isDate, st, source, init);
      AbsorbTwice(isDate, st, source, DecodeEach(init), Decode(last));
    }
  }

  lemma {:induction false} SameAbsorbed(isDate: DateCheck, st: Splitting, source: FrameSource, x: string, y: string)
    ensures Absorb(isDate, st, Text(source, x)) == Absorb(isDate, st, Text(source, y))
       <==> SameReading(isDate, source, st.partial.Of(source) + x, st.partial.Of(source) + y)
  {
    var a := LinesOfText(isDate, source, st.partial.Of(source) + x);
    var b := LinesOfText(isDate, source, st.partial.Of(source) + y);
    assert (st.lines + a)[|st.lines|..] == a && (st.lines + b)[|st.lines|..] == b;
  }

  /**
   Well-formed bytes may arrive in one payload or in any number of them: the lines and what
   is kept are the same, whatever came before, iff no cut falls inside a character.
   */
  lemma CutsAreInvisibleIff(isDate: DateCheck, st: Splitting, source: FrameSource, parts: seq<Bytes>)
    requires parts != [] && WellFormed(Glued(parts))
    ensures Payloads(isDate, st, source, parts) == Payloads(isDate, st, source, [Glued(parts)]) <==> NoCut(parts)
  {
    PayloadsAreOneText(isDate, st, source, parts);
    PayloadsAreOneText(isDate, st, source, [Glued(parts)]);
    DecodeEachSnoc([], Glued(parts));
    assert [] + [Glued(parts)] == [Glued(parts)] && "" + Decode(Glued(parts)) == Decode(Glued(parts));
    ReadWholeIff(isDate, source, st.partial.Of(source), parts);
    SameAbsorbed(isDate, st, source, DecodeEach(parts), Decode(Glued(parts)));
  }

  /** Parts that decode to one short line. */
  lemma {:induction false} OneLineInParts(isDate: DateCheck, parts: seq<Bytes>, word: string)
    requires parts != [] && DecodeEach(parts) == word + "\n"
    requires word != "" && '\n' !in word && '\r' !in word && ' ' !in word
    ensures Payloads(isDate, NOTHING_SPLIT, Stdout, parts).lines == [LogLine(ServerClock, Stdout, word)]
  {
    PayloadsAreOneText(isDate, NOTHING_SPLIT, Stdout, parts);
    OneLine(isDate, word);
  }

  lemma {:induction false} Newline()
    ensures Decode([0x0A]) == "\n"
  {
    var bytes: Bytes := [0x0A];
    assert bytes[1..] == [];
  }

  /** A byte of a longer character, at the end of its part. */
  lemma {:induction false} LoneByte(b: byte)
    requires 0x80 <= b
    ensures Decode([b]) == [REPLACEMENT]
  {
    var bytes := [b];
    assert bytes[1..] == [];
  }

  /** A continuation byte, in front of a newline. */
  lemma {:induction false} LastByte(b: byte)
    requires IsContinuation(b)
    ensures Decode([b, 0x0A]) == [REPLACEMENT] + "\n"
  {
    var bytes: Bytes := [b, 0x0A];
    assert bytes[1..] == [0x0A];
    Newline();
  }

  lemma {:induction false} PartsCons(part: Bytes, rest: seq<Bytes>)
    ensures DecodeEach([part] + rest) == Decode(part) + DecodeEach(rest)
  {
    assert ([part] + rest)[1..] == rest;
  }

  lemma {:induction false} LetterWhole()
    ensures DecodeEach([[0xC3, 0xA9, 0x0A]]) == "\U{E9}" + "\n"
  {
    var bytes: Bytes := [0xC3, 0xA9, 0x0A];
    assert bytes[2..] == [0x0A];
    Newline();
    PartsCons(bytes, []);
    assert [bytes] + [] == [bytes];
  }

  lemma {:induction false} LetterInTwo()
    ensures DecodeEach([[0xC3], [0xA9, 0x0A]]) == "\U{FFFD}\U{FFFD}" + "\n"
  {
    LoneByte(0xC3);
    LastByte(0xA9);
    PartsCons([0xC3], [[0xA9, 0x0A]]);
    PartsCons([0xA9, 0x0A], []);
  }

  lemma {:induction false} SignInThree()
    ensures DecodeEach([[0xE2], [0x82], [0xAC, 0x0A]]) == "\U{FFFD}\U{FFFD}\U{FFFD}" + "\n"
  {
    LoneByte(0xE2);
    LoneByte(0x82);
    LastByte(0xAC);
    PartsCons([0xE2], [[0x82], [0xAC, 0x0A]]);
    PartsCons([0x82], [[0xAC, 0x0A]]);
    PartsCons([0xAC, 0x0A], []);
  }

  /** The letter U+00E9 cut in two reaches the reader as two U+FFFD, the sign U+20AC cut in three as three. */
  lemma {:induction false} LetterCutInTwo(isDate: DateCheck)
    ensures Payloads(isDate, NOTHING_SPLIT, Stdout, [[0xC3, 0xA9, 0x0A]]).lines
         == [LogLine(ServerClock, Stdout, "\U{E9}")]
    ensures Payloads(isDate, NOTHING_SPLIT, Stdout, [[0xC3], [0xA9, 0x0A]]).lines
         == [LogLine(ServerClock, Stdout, "\U{FFFD}\U{FFFD}")]
    ensures Payloads(isDate, NOTHING_SPLIT, Stdout, [[0xE2], [0x82], [0xAC, 0x0A]]).lines
         == [LogLine(ServerClock, Stdout, "\U{FFFD}\U{FFFD}\U{FFFD}")]
  {
    LetterWhole();
    LetterInTwo();
    SignInThree();
    OneLineInParts(isDate, [[0xC3, 0xA9, 0x0A]], "\U{E9}");
    OneLineInParts(isDate, [[0xC3], [0xA9, 0x0A]], "\U{FFFD}\U{FFFD}");
    OneLineInParts(isDate, [[0xE2], [0x82], [0xAC, 0x0A]], "\U{FFFD}\U{FFFD}\U{FFFD}");
  }

  lemma OneLine(isDate: DateCheck, word: string)
    requires word != "" && '\n' !in word && '\r' !in word && ' ' !in word
    ensures Absorb(isDate, NOTHING_SPLIT, Text(Stdout, word + "\n")).lines == [LogLine(ServerClock, Stdout, word)]
  {
    var text := word + "\n";
    assert text[..|word|] == word && text[|word| + 1..] == "";
    IndexOfUnique(text, '\n', |word|);
    AtFirstNewline(text, |word|);
    NoNewline("");
    LinesOfOneAndMore(isDate, Stdout, word, []);
    IndexOfUnique(word, ' ', |word|);
    assert LineOf(isDate, Stdout, word) == [LogLine(ServerClock, Stdout, word)];
    assert "" + text == text;
  }
}
