/**
 UTF-8 decoding as `Buffer.toString("utf8")` does it, without state from one call to the
 next: a run of bytes that starts a character but does not finish it, and a byte that
 cannot start one, each become one U+FFFD. Text is a sequence of scalar values.
 */
module Utf8 {
  import opened Basics

  const REPLACEMENT := '\U{FFFD}'

  predicate IsContinuation(b: byte) {
    0x80 <= b <= 0xBF
  }

  /** No character starts with this byte. */
  predicate IsStray(b: byte) {
    0x80 <= b < 0xC2 || 0xF4 < b
  }

  /** Continuation bytes that a first byte announces. */
  function Announced(lead: byte): nat {
    if 0xC2 <= lead <= 0xDF then 1 else if 0xE0 <= lead <= 0xEF then 2 else if 0xF0 <= lead <= 0xF4 then 3 else 0
  }

  /** The second byte must also rule out overlong forms, surrogates and values above U+10FFFF. */
  predicate SecondFits(lead: byte, b: byte) {
    && IsContinuation(b)
    && (lead == 0xE0 ==> 0xA0 <= b)
    && (lead == 0xED ==> b <= 0x9F)
    && (lead == 0xF0 ==> 0x90 <= b)
    && (lead == 0xF4 ==> b <= 0x8F)
  }

  /** Length of the longest start of the bytes that is a character or can still become one; 1 for a stray byte. */
  function Taken(bytes: Bytes): (n: nat)
    requires bytes != []
    ensures 1 <= n <= |bytes| && n <= 1 + Announced(bytes[0])
    ensures forall k | 1 <= k < n :: IsContinuation(bytes[k])
  {
    var announced := Announced(bytes[0]);
    if announced == 0 || |bytes| == 1 || !SecondFits(bytes[0], bytes[1]) then 1
    else if announced == 1 || |bytes| == 2 || !IsContinuation(bytes[2]) then 2
    else if announced == 2 || |bytes| == 3 || !IsContinuation(bytes[3]) then 3
    else 4
  }

  /** The bytes start with a whole character. */
  predicate Complete(bytes: Bytes)
    requires bytes != []
  {
    !IsStray(bytes[0]) && Taken(bytes) == 1 + Announced(bytes[0])
  }

  /** The bits so far, and the six of a continuation byte. */
  function Joined(high: int, b: byte): int {
    high * 0x40 + (b as int - 0x80)
  }

  function CodePoint(bytes: Bytes): (n: nat)
    requires bytes != [] && Complete(bytes)
    ensures n < 0xD800 || 0xE000 <= n < 0x11_0000
    ensures 1 < Taken(bytes) ==> 0x80 <= n
  {
    match Taken(bytes)
    case 1 => bytes[0]
    case 2 => Joined(bytes[0] as int - 0xC0, bytes[1])
    case 3 => Joined(Joined(bytes[0] as int - 0xE0, bytes[1]), bytes[2])
    case _ => Joined(Joined(Joined(bytes[0] as int - 0xF0, bytes[1]), bytes[2]), bytes[3])
  }

  function FirstChar(bytes: Bytes): char
    requires bytes != []
  {
    if Complete(bytes) then CodePoint(bytes) as char else REPLACEMENT
  }

  function Decode(bytes: Bytes): string
    decreases |bytes|
  {
    if bytes == [] then "" else [FirstChar(bytes)] + Decode(bytes[Taken(bytes)..])
  }

  predicate WellFormed(bytes: Bytes)
    decreases |bytes|
  {
    bytes == [] || (Complete(bytes) && WellFormed(bytes[Taken(bytes)..]))
  }

  function Replacements(k: nat): string {
    seq(k, _ => REPLACEMENT)
  }

  // ----- decoding inverts encoding

  function EncodeChar(c: char): (bytes: Bytes)
    ensures bytes != []
  {
    var n := c as int;
    if n < 0x80 then [n]
    else if n < 0x800 then [0xC0 + n / 0x40, 0x80 + n % 0x40]
    else if n < 0x1_0000 then [0xE0 + n / 0x40 / 0x40, 0x80 + n / 0x40 % 0x40, 0x80 + n % 0x40]
    else [0xF0 + n / 0x40 / 0x40 / 0x40, 0x80 + n / 0x40 / 0x40 % 0x40, 0x80 + n / 0x40 % 0x40, 0x80 + n % 0x40]
  }

  function Encode(text: string): Bytes {
    if text == "" then [] else EncodeChar(text[0]) + Encode(text[1..])
  }

  lemma FirstOfEncoded(c: char, rest: Bytes)
    ensures var bytes := EncodeChar(c) + rest;
            Complete(bytes) && Taken(bytes) == |EncodeChar(c)| && FirstChar(bytes) == c
  {
  }

  /** Every text is the decoding of its encoding, which is well formed. */
  lemma {:induction false} DecodeOfEncoded(text: string)
    ensures WellFormed(Encode(text)) && Decode(Encode(text)) == text
    decreases |text|
  {
    if text != "" {
      var first, rest := EncodeChar(text[0]), Encode(text[1..]);
      FirstOfEncoded(text[0], rest);
      assert (first + rest)[|first|..] == rest;
      DecodeOfEncoded(text[1..]);
    }
  }

  lemma JoinedApart(high: int, b: byte)
    requires IsContinuation(b)
    ensures Joined(high, b) / 0x40 == high && 0x80 + Joined(high, b) % 0x40 == b as int
  {
  }

  lemma EncodeOfFirst(bytes: Bytes)
    requires bytes != [] && Complete(bytes)
    ensures EncodeChar(FirstChar(bytes)) == bytes[..Taken(bytes)]
  {
    var lead, n := bytes[0] as int, Taken(bytes);
    if n == 2 {
      JoinedApart(lead - 0xC0, bytes[1]);
    } else if n == 3 {
      JoinedApart(lead - 0xE0, bytes[1]);
      JoinedApart(Joined(lead - 0xE0, bytes[1]), bytes[2]);
    } else if n == 4 {
      var two := Joined(lead - 0xF0, bytes[1]);
      JoinedApart(lead - 0xF0, bytes[1]);
      JoinedApart(two, bytes[2]);
      JoinedApart(Joined(two, bytes[2]), bytes[3]);
    }
  }

  /** Well-formed bytes are the encoding of their text. */
  lemma {:induction false} EncodeOfDecoded(bytes: Bytes)
    requires WellFormed(bytes)
    ensures Encode(Decode(bytes)) == bytes
    decreases |bytes|
  {
    if bytes != [] {
      EncodeOfFirst(bytes);
      EncodeOfDecoded(bytes[Taken(bytes)..]);
      assert Decode(bytes)[1..] == Decode(bytes[Taken(bytes)..]);
    }
  }

  // ----- a cut

  /** A character that lies before the cut is decoded alike without what is behind the cut. */
  lemma FirstBeforeCut(a: Bytes, b: Bytes)
    requires a != [] && Complete(a + b) && Taken(a + b) <= |a|
    ensures Complete(a) && Taken(a) == Taken(a + b) && FirstChar(a) == FirstChar(a + b)
    ensures (a + b)[Taken(a + b)..] == a[Taken(a)..] + b
  {
  }

  /** Its bytes up to a cut inside it are one unfinished character. */
  lemma FirstAcrossCut(a: Bytes, b: Bytes)
    requires a != [] && Complete(a + b) && |a| < Taken(a + b)
    ensures Decode(a) == [REPLACEMENT]
    ensures Taken(a + b) - |a| <= |b|
    ensures forall k | 0 <= k < Taken(a + b) - |a| :: IsContinuation(b[k])
  {
    assert Taken(a) == |a| && !Complete(a);
    assert a[|a|..] == [];
    forall k | 0 <= k < Taken(a + b) - |a| ensures IsContinuation(b[k]) {
      assert b[k] == (a + b)[|a| + k];
    }
  }

  lemma {:induction false} StrayByte(b: Bytes)
    requires b != [] && IsContinuation(b[0])
    ensures Decode(b) == [REPLACEMENT] + Decode(b[1..])
  {
  }

  lemma ReplacementsCons(k: nat, tail: string)
    ensures [REPLACEMENT] + (Replacements(k) + tail) == Replacements(k + 1) + tail
  {
  }

  lemma {:induction false} StrayBytes(bytes: Bytes)
    requires forall b <- bytes :: IsContinuation(b)
    ensures Decode(bytes) == Replacements(|bytes|)
    decreases |bytes|
  {
    if bytes != [] {
      StrayByte(bytes);
      StrayBytes(bytes[1..]);
    }
  }

  /** The start of a character is one U+FFFD, and each of the bytes that were cut off is one. */
  lemma {:induction false} CutCharacterShows(c: char, k: nat)
    requires 0 < k < |EncodeChar(c)|
    ensures Decode(EncodeChar(c)[..k]) == Replacements(1)
    ensures Decode(EncodeChar(c)[k..]) == Replacements(|EncodeChar(c)| - k)
  {
    var a, b := EncodeChar(c)[..k], EncodeChar(c)[k..];
    FirstOfEncoded(c, []);
    assert EncodeChar(c) + [] == EncodeChar(c) == a + b;
    FirstAcrossCut(a, b);
    forall x | x in b ensures IsContinuation(x) {
      var i :| 0 <= i < |b| && b[i] == x;
    }
    StrayBytes(b);
  }

  // ----- bytes that arrive in parts, each decoded on its own

  function Glued(parts: seq<Bytes>): Bytes {
    if parts == [] then [] else parts[0] + Glued(parts[1..])
  }

  function DecodeEach(parts: seq<Bytes>): string {
    if parts == [] then "" else Decode(parts[0]) + DecodeEach(parts[1..])
  }

  /** A part starts inside a character. */
  predicate CutsCharacter(part: Bytes) {
    part != [] && IsContinuation(part[0])
  }

  predicate NoCut(parts: seq<Bytes>) {
    forall part <- parts :: !CutsCharacter(part)
  }

  lemma {:induction false} DecodeEachSnoc(parts: seq<Bytes>, last: Bytes)
    ensures DecodeEach(parts + [last]) == DecodeEach(parts) + Decode(last)
    decreases |parts|
  {
    if parts == [] {
      assert parts + [last] == [last] && [last][1..] == [];
      assert Decode(last) + DecodeEach([]) == Decode(last);
    } else {
      assert (parts + [last])[1..] == parts[1..] + [last];
      DecodeEachSnoc(parts[1..], last);
      Associative(Decode(parts[0]), DecodeEach(parts[1..]), Decode(last));
    }
  }

  lemma {:induction false} NoCutFirst(parts: seq<Bytes>)
    requires parts != []
    ensures NoCut(parts) <==> !CutsCharacter(parts[0]) && NoCut(parts[1..])
  {
    assert forall p :: p in parts <==> p == parts[0] || p in parts[1..];
  }

  /** What reaches the reader of a character: itself, or this many U+FFFD. */
  function Piece(c: char, k: nat): string {
    if k == 0 then [c] else Replacements(k)
  }

  /** A text of which the characters with a non-zero number were cut. */
  function Damaged(text: string, damage: seq<nat>): string
    requires |damage| == |text|
  {
    if text == "" then "" else Piece(text[0], damage[0]) + Damaged(text[1..], damage[1..])
  }

  /** Only characters of several bytes are cut, and each leaves two U+FFFD or more. */
  predicate IsDamage(text: string, damage: seq<nat>) {
    && |damage| == |text|
    && forall i | 0 <= i < |text| :: damage[i] == 0 || (2 <= damage[i] && 0x80 <= text[i] as int)
  }

  predicate Unharmed(damage: seq<nat>) {
    forall i | 0 <= i < |damage| :: damage[i] == 0
  }

  lemma {:induction false} DamageCons(c: char, k: nat, text: string, damage: seq<nat>)
    requires IsDamage(text, damage) && (k == 0 || (2 <= k && 0x80 <= c as int))
    ensures IsDamage([c] + text, [k] + damage)
    ensures Damaged([c] + text, [k] + damage) == Piece(c, k) + Damaged(text, damage)
    ensures Unharmed([k] + damage) <==> k == 0 && Unharmed(damage)
  {
    assert ([c] + text)[1..] == text && ([k] + damage)[1..] == damage;
    assert Unharmed([k] + damage) ==> ([k] + damage)[0] == 0;
    if Unharmed([k] + damage) {
      forall i | 0 <= i < |damage| ensures damage[i] == 0 {
        assert damage[i] == ([k] + damage)[i + 1];
      }
    }
  }

  /** The bytes start with `j` that continue a character from before. */
  predicate StartsWithin(bytes: Bytes, j: nat) {
    && j <= |bytes|
    && (forall i | 0 <= i < j :: IsContinuation(bytes[i]))
    && WellFormed(bytes[j..])
  }

  /**
   What is shown of the bytes: `m` replacements for those from before, and the text that
   follows, damaged. `clean` says that no part starts inside a character.
   */
  ghost predicate Reads(bytes: Bytes, shown: string, clean: bool, j: nat, m: nat, damage: seq<nat>) {
    && j <= |bytes|
    && var text := Decode(bytes[j..]);
       && IsDamage(text, damage)
       && shown == Replacements(m) + Damaged(text, damage)
       && (m == 0 <==> j == 0)
       && (clean <==> j == 0 && Unharmed(damage))
  }

  /** A continuation byte from before is one more replacement. */
  lemma {:induction false} ReadStray(part: Bytes, tail: Bytes, after: string, clean: bool,
                                     j: nat, m: nat, damage: seq<nat>)
    requires part != [] && IsContinuation(part[0])
    requires Reads(part[1..] + tail, Decode(part[1..]) + after, clean, j, m, damage)
    ensures Reads(part + tail, Decode(part) + after, false, j + 1, m + 1, damage)
  {
    StrayByte(part);
    assert (part + tail)[j + 1..] == (part[1..] + tail)[j..];
    Associative([REPLACEMENT], Decode(part[1..]), after);
    ReplacementsCons(m, Damaged(Decode((part + tail)[j + 1..]), damage));
  }

  lemma NoReplacements(text: string)
    ensures Replacements(0) + text == text
  {
  }

  /** A whole character is read as it is. */
  lemma {:induction false} ReadCharacter(part: Bytes, tail: Bytes, after: string, clean: bool, damage: seq<nat>)
    requires part != [] && Complete(part + tail) && Taken(part + tail) <= |part|
    requires Reads(part[Taken(part + tail)..] + tail, Decode(part[Taken(part + tail)..]) + after, clean, 0, 0, damage)
    ensures Reads(part + tail, Decode(part) + after, clean, 0, 0, [0] + damage)
  {
    var n, c := Taken(part), FirstChar(part);
    FirstBeforeCut(part, tail);
    var rest := part[n..] + tail;
    assert rest[0..] == rest && (part + tail)[0..] == part + tail;
    DamageCons(c, 0, Decode(rest), damage);
    Associative([c], Decode(part[n..]), after);
    NoReplacements(Damaged(Decode(rest), damage));
    NoReplacements(Damaged([c] + Decode(rest), [0] + damage));
  }

  lemma {:induction false} AcrossCut(part: Bytes, tail: Bytes, j: nat)
    requires part != [] && Complete(part + tail) && Taken(part + tail) == |part| + j && 0 < j
    ensures Decode(part) == [REPLACEMENT] && j <= |tail|
    ensures 0x80 <= FirstChar(part + tail) as int
    ensures Decode(part + tail) == [FirstChar(part + tail)] + Decode(tail[j..])
  {
    FirstAcrossCut(part, tail);
    assert (part + tail)[|part| + j..] == tail[j..];
  }

  lemma {:induction false} CutShows(c: char, m: nat, text: string, damage: seq<nat>)
    requires IsDamage(text, damage) && 1 <= m && 0x80 <= c as int
    ensures [REPLACEMENT] + (Replacements(m) + Damaged(text, damage))
         == Replacements(0) + Damaged([c] + text, [m + 1] + damage)
  {
    DamageCons(c, m + 1, text, damage);
    ReplacementsCons(m, Damaged(text, damage));
    NoReplacements(Damaged([c] + text, [m + 1] + damage));
  }

  /** A character whose bytes go on in the next part is read as replacements. */
  lemma {:induction false} ReadCutCharacter(part: Bytes, tail: Bytes, after: string, clean: bool,
                                            j: nat, m: nat, damage: seq<nat>)
    requires part != [] && Complete(part + tail) && Taken(part + tail) == |part| + j && 0 < j
    requires Reads(tail, after, clean, j, m, damage)
    ensures Reads(part + tail, Decode(part) + after, clean, 0, 0, [m + 1] + damage)
  {
    var whole, text := part + tail, Decode(tail[j..]);
    var c := FirstChar(whole);
    AcrossCut(part, tail, j);
    assert whole[0..] == whole;
    DamageCons(c, m + 1, text, damage);
    CutShows(c, m, text, damage);
  }

  lemma {:induction false} WithinStray(part: Bytes, tail: Bytes, j: nat)
    requires part != [] && 0 < j && StartsWithin(part + tail, j)
    ensures IsContinuation(part[0])
    ensures StartsWithin(part[1..] + tail, j - 1)
  {
    var bytes := part + tail;
    assert bytes[0] == part[0];
    assert part[1..] + tail == bytes[1..] && bytes[1..][j - 1..] == bytes[j..];
  }

  lemma {:induction false} WithinCharacter(part: Bytes, tail: Bytes)
    requires part != [] && WellFormed(part + tail) && Taken(part + tail) <= |part|
    ensures var rest := part[Taken(part + tail)..]; StartsWithin(rest + tail, 0) && !CutsCharacter(rest)
    ensures !CutsCharacter(part)
  {
    var n := Taken(part + tail);
    var rest := part[n..] + tail;
    assert rest == (part + tail)[n..] && rest[0..] == rest;
    assert part[n..] != [] ==> rest[0] == part[n..][0];
  }

  lemma {:induction false} WithinCut(part: Bytes, tail: Bytes)
    requires part != [] && WellFormed(part + tail) && |part| < Taken(part + tail)
    ensures StartsWithin(tail, Taken(part + tail) - |part|)
    ensures !CutsCharacter(part)
  {
    FirstAcrossCut(part, tail);
    var n := Taken(part + tail);
    assert tail[n - |part|..] == (part + tail)[n..];
  }

  ghost predicate PartsRead(part: Bytes, rest: seq<Bytes>, j: nat, m: nat, damage: seq<nat>) {
    Reads(part + Glued(rest), Decode(part) + DecodeEach(rest), !CutsCharacter(part) && NoCut(rest), j, m, damage)
  }

  lemma {:induction false} ReadFromCharacter(part: Bytes, rest: seq<Bytes>) returns (damage: seq<nat>)
    requires part != [] && WellFormed(part + Glued(rest))
    ensures PartsRead(part, rest, 0, 0, damage)
    decreases |rest|, |part|, 0
  {
    var tail, after, n := Glued(rest), DecodeEach(rest), Taken(part + Glued(rest));
    if n <= |part| {
      WithinCharacter(part, tail);
      var m, later := ReadParts(part[n..], rest, 0);
      ReadCharacter(part, tail, after, NoCut(rest), later);
      damage := [0] + later;
    } else {
      WithinCut(part, tail);
      NoCutFirst(rest);
      var m, later := ReadParts(rest[0], rest[1..], n - |part|);
      ReadCutCharacter(part, tail, after, NoCut(rest), n - |part|, m, later);
      damage := [m + 1] + later;
    }
  }

  lemma {:induction false} NothingToRead()
    ensures PartsRead([], [], 0, 0, [])
  {
    assert [] + Glued([]) == [];
  }

  lemma {:induction false} NextPart(rest: seq<Bytes>, j: nat, m: nat, damage: seq<nat>)
    requires rest != [] && PartsRead(rest[0], rest[1..], j, m, damage)
    ensures PartsRead([], rest, j, m, damage)
  {
    assert [] + Glued(rest) == Glued(rest) && "" + DecodeEach(rest) == DecodeEach(rest);
    NoCutFirst(rest);
  }

  lemma {:induction false} StrayPart(part: Bytes, rest: seq<Bytes>, j: nat, m: nat, damage: seq<nat>)
    requires part != [] && IsContinuation(part[0]) && PartsRead(part[1..], rest, j, m, damage)
    ensures PartsRead(part, rest, j + 1, m + 1, damage)
  {
    ReadStray(part, Glued(rest), DecodeEach(rest), !CutsCharacter(part[1..]) && NoCut(rest), j, m, damage);
  }

  lemma {:induction false} ReadFromStray(part: Bytes, rest: seq<Bytes>, j: nat) returns (m: nat, damage: seq<nat>)
    requires part != [] && 0 < j && StartsWithin(part + Glued(rest), j)
    ensures PartsRead(part, rest, j, m, damage)
    decreases |rest|, |part|, 0
  {
    WithinStray(part, Glued(rest), j);
    var fewer;
    fewer, damage := ReadParts(part[1..], rest, j - 1);
    StrayPart(part, rest, j - 1, fewer, damage);
    m := fewer + 1;
  }

  /**
   What decoding part by part makes of well-formed bytes: the same text, but for the
   characters that a cut falls into, each of which becomes two or more U+FFFD.
   */
  lemma {:induction false} ReadParts(part: Bytes, rest: seq<Bytes>, j: nat) returns (m: nat, damage: seq<nat>)
    requires StartsWithin(part + Glued(rest), j)
    ensures PartsRead(part, rest, j, m, damage)
    decreases |rest|, |part|, 1
  {
    if part == [] {
      assert part + Glued(rest) == Glued(rest);
      if rest == [] {
        NothingToRead();
        return 0, [];
      }
      m, damage := ReadParts(rest[0], rest[1..], j);
      NextPart(rest, j, m, damage);
    } else if j > 0 {
      m, damage := ReadFromStray(part, rest, j);
    } else {
      assert (part + Glued(rest))[0..] == part + Glued(rest);
      m := 0;
      damage := ReadFromCharacter(part, rest);
    }
  }

  lemma {:induction false} UnharmedIsSame(text: string, damage: seq<nat>)
    requires |damage| == |text| && Unharmed(damage)
    ensures Damaged(text, damage) == text
    decreases |text|
  {
    if text != "" {
      UnharmedIsSame(text[1..], damage[1..]);
    }
  }

  /** Well-formed bytes in parts, from the beginning. */
  lemma {:induction false} DecodeEachIsDamaged(parts: seq<Bytes>) returns (damage: seq<nat>)
    requires WellFormed(Glued(parts))
    ensures IsDamage(Decode(Glued(parts)), damage)
    ensures DecodeEach(parts) == Damaged(Decode(Glued(parts)), damage)
    ensures NoCut(parts) <==> Unharmed(damage)
  {
    var m;
    assert [] + Glued(parts) == Glued(parts) && Glued(parts)[0..] == Glued(parts);
    m, damage := ReadParts([], parts, 0);
    NoReplacements(Damaged(Decode(Glued(parts)), damage));
  }
}
