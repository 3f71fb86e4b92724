/**
 What the header of a frame may look like: encoded text, lines, white space and numbers by their
 own definitions, and frames whose length line stands among other header lines.
 */
module HeaderTexts {
  import opened Prelude
  import opened ByteText
  import opened Framing

  // ----- encoded text (Section 3 of RFC 3629)

  /** A Unicode scalar value. */
  predicate IsScalar(c: nat) { c <= 0x10FFFF && !(0xD800 <= c <= 0xDFFF) }

  function EncodeScalar(c: nat): (s: Bytes)
    requires IsScalar(c)
    ensures s != []
  {
    if c < 0x80 then [c]
    else if c < 0x800 then [0xC0 + c / 64, 0x80 + c % 64]
    else if c < 0x1_0000 then [0xE0 + c / 4096, 0x80 + c / 64 % 64, 0x80 + c % 64]
    else [0xF0 + c / 262144, 0x80 + c / 4096 % 64, 0x80 + c / 64 % 64, 0x80 + c % 64]
  }

  predicate AllScalars(text: seq<nat>) { forall i :: 0 <= i < |text| ==> IsScalar(text[i]) }

  function EncodeText(text: seq<nat>): Bytes
    requires AllScalars(text)
  {
    if text == [] then [] else EncodeScalar(text[0]) + EncodeText(text[1..])
  }

  lemma EncodedScalarIsValid(c: nat, rest: Bytes)
    requires IsScalar(c) && ValidUtf8(rest)
    ensures ValidUtf8(EncodeScalar(c) + rest)
  {
    var e := EncodeScalar(c);
    assert (e + rest)[|e|..] == rest;
  }

  /** The scalar value a valid text starts with. */
  function FirstScalar(s: Bytes): (c: nat)
    requires s != [] && ValidUtf8(s)
    ensures IsScalar(c)
  {
    var lead: int := s[0];
    if lead < 0x80 then lead
    else if lead < 0xE0 then Joined(lead - 0xC0, s[1])
    else if lead < 0xF0 then Joined(Joined(lead - 0xE0, s[1]), s[2])
    else Joined(Joined(Joined(lead - 0xF0, s[1]), s[2]), s[3])
  }

  /** Six more bits. */
  function Joined(high: nat, b: int): int { high * 64 + (b - 0x80) }

  lemma JoinedParts(high: nat, b: int)
    requires 0x80 <= b <= 0xBF
    ensures Joined(high, b) / 64 == high && Joined(high, b) % 64 == b - 0x80
  {
  }

  lemma ThreeParts(high: nat, b: int, d: int)
    requires 0x80 <= b <= 0xBF && 0x80 <= d <= 0xBF
    ensures var c := Joined(Joined(high, b), d);
            c / 4096 == high && c / 64 % 64 == b - 0x80 && c % 64 == d - 0x80
  {
    JoinedParts(high, b);
    JoinedParts(Joined(high, b), d);
  }

  lemma FourParts(high: nat, b: int, d: int, e: int)
    requires 0x80 <= b <= 0xBF && 0x80 <= d <= 0xBF && 0x80 <= e <= 0xBF
    ensures var c := Joined(Joined(Joined(high, b), d), e);
            c / 262144 == high && c / 4096 % 64 == b - 0x80 && c / 64 % 64 == d - 0x80 && c % 64 == e - 0x80
  {
    ThreeParts(high, b, d);
    ThreeParts(Joined(high, b), d, e);
    JoinedParts(high, b);
  }

  lemma ValidStartsEncoded(s: Bytes)
    requires s != [] && ValidUtf8(s)
    ensures var e := EncodeScalar(FirstScalar(s)); e <= s && ValidUtf8(s[|e|..])
  {
    if 0xC2 <= s[0] <= 0xDF {
      JoinedParts(s[0] - 0xC0, s[1]);
      assert EncodeScalar(FirstScalar(s)) == [s[0], s[1]];
    } else if 0xE0 <= s[0] <= 0xEF {
      ThreeParts(s[0] - 0xE0, s[1], s[2]);
      assert EncodeScalar(FirstScalar(s)) == [s[0], s[1], s[2]];
    } else if 0xF0 <= s[0] {
      FourParts(s[0] - 0xF0, s[1], s[2], s[3]);
      assert EncodeScalar(FirstScalar(s)) == [s[0], s[1], s[2], s[3]];
    }
  }

  lemma {:induction false} ValidIsEncoded(s: Bytes) returns (text: seq<nat>)
    requires ValidUtf8(s)
    ensures AllScalars(text) && EncodeText(text) == s
  {
    if s == [] {
      text := [];
    } else {
      var c := FirstScalar(s);
      ValidStartsEncoded(s);
      var rest := ValidIsEncoded(s[|EncodeScalar(c)|..]);
      text := [c] + rest;
      PrefixAndRest(EncodeScalar(c), s);
    }
  }

  lemma {:induction false} EncodedIsValid(text: seq<nat>)
    requires AllScalars(text)
    ensures ValidUtf8(EncodeText(text))
  {
    if text != [] {
      EncodedIsValid(text[1..]);
      EncodedScalarIsValid(text[0], EncodeText(text[1..]));
    }
  }

  /** The bytes accepted as UTF-8 are exactly the encodings of texts. */
  lemma ValidIffEncoded(s: Bytes)
    ensures ValidUtf8(s) <==> exists text :: AllScalars(text) && EncodeText(text) == s
  {
    if ValidUtf8(s) {
      var text := ValidIsEncoded(s);
    }
    if text :| AllScalars(text) && EncodeText(text) == s {
      EncodedIsValid(text);
    }
  }

  lemma {:induction false} ValidOfConcat(a: Bytes, b: Bytes)
    requires ValidUtf8(a) && ValidUtf8(b)
    ensures ValidUtf8(a + b)
    decreases |a|
  {
    if a == [] {
      AppendNothing(b);
    } else {
      var c := FirstScalar(a);
      ValidStartsEncoded(a);
      ValidOfConcat(a[|EncodeScalar(c)|..], b);
      EncodedScalarIsValid(c, a[|EncodeScalar(c)|..] + b);
      PrefixAndRest(EncodeScalar(c), a);
      AppendAssoc(EncodeScalar(c), a[|EncodeScalar(c)|..], b);
    }
  }

  // ----- white space

  predicate AllSpace(s: Bytes) { forall i :: 0 <= i < |s| ==> s[i] in {9, 10, 11, 12, 13, 32} }

  /** Nothing to trim. */
  predicate Bare(s: Bytes) { s != [] ==> !IsSpace(s[0]) && !IsSpace(s[|s| - 1]) }

  lemma {:induction false} TrimStartMeaning(s: Bytes) returns (a: Bytes)
    ensures AllSpace(a) && s == a + TrimStart(s) && (TrimStart(s) != [] ==> !IsSpace(TrimStart(s)[0]))
  {
    a := [];
    if s != [] && IsSpace(s[0]) {
      var b := TrimStartMeaning(s[1..]);
      a := [s[0]] + b;
      AppendAssoc([s[0]], b, TrimStart(s));
      HeadAndTail(s);
    }
  }

  lemma {:induction false} TrimEndMeaning(s: Bytes) returns (b: Bytes)
    ensures AllSpace(b) && s == TrimEnd(s) + b
    ensures TrimEnd(s) != [] ==> !IsSpace(TrimEnd(s)[|TrimEnd(s)| - 1])
  {
    b := [];
    if s != [] && IsSpace(s[|s| - 1]) {
      var init, last := s[..|s| - 1], s[|s| - 1];
      var c := TrimEndMeaning(init);
      b := c + [last];
      AppendAssoc(TrimEnd(s), c, [last]);
      InitAndLast(s);
    }
  }

  /** Trimming cuts off white space on both sides and leaves nothing to trim. */
  lemma TrimMeaning(s: Bytes) returns (a: Bytes, b: Bytes)
    ensures AllSpace(a) && AllSpace(b) && Bare(Trim(s)) && s == a + Trim(s) + b
  {
    a := TrimStartMeaning(s);
    b := TrimEndMeaning(TrimStart(s));
    AppendAssoc(a, Trim(s), b);
    if Trim(s) != [] {
      assert Trim(s)[0] == TrimStart(s)[0];
    }
  }

  lemma {:induction false} TrimStartOf(a: Bytes, t: Bytes)
    requires AllSpace(a) && (t != [] ==> !IsSpace(t[0]))
    ensures TrimStart(a + t) == t
  {
    if a == [] {
      AppendNothing(t);
    } else {
      assert (a + t)[1..] == a[1..] + t;
      TrimStartOf(a[1..], t);
    }
  }

  lemma {:induction false} TrimEndOf(t: Bytes, b: Bytes)
    requires AllSpace(b) && (t != [] ==> !IsSpace(t[|t| - 1]))
    ensures TrimEnd(t + b) == t
  {
    if b == [] {
      AppendNothing(t);
    } else {
      assert (t + b)[..|t + b| - 1] == t + b[..|b| - 1];
      TrimEndOf(t, b[..|b| - 1]);
    }
  }

  lemma TrimOf(a: Bytes, t: Bytes, b: Bytes)
    requires AllSpace(a) && AllSpace(b) && Bare(t) && t != []
    ensures Trim(a + t + b) == t
  {
    AppendAssoc(a, t, b);
    TrimStartOf(a, t + b);
    TrimEndOf(t, b);
  }

  // ----- numbers

  function Zeros(k: nat): Bytes { seq(k, i => ZERO) }

  lemma {:induction false} DigitsAreZerosAndNumber(digits: Bytes) returns (k: nat)
    requires digits != [] && AllDigits(digits)
    ensures digits == Zeros(k) + PrintDecimal(DigitsValue(digits))
  {
    var init, last := digits[..|digits| - 1], digits[|digits| - 1];
    InitAndLast(digits);
    if init == [] {
      k := 0;
      assert digits == [last];
    } else {
      k := DigitsAreZerosAndNumber(init);
      var v := DigitsValue(init);
      if v == 0 {
        assert digits == Zeros(k + 1) + [last];
        k := k + 1;
      } else {
        AppendAssoc(Zeros(k), PrintDecimal(v), [last]);
        assert (v * 10 + (last - ZERO)) / 10 == v && (v * 10 + (last - ZERO)) % 10 == last - ZERO;
      }
    }
  }

  lemma {:induction false} ZerosCountNothing(k: nat, digits: Bytes)
    requires digits != [] && AllDigits(digits)
    ensures AllDigits(Zeros(k) + digits) && DigitsValue(Zeros(k) + digits) == DigitsValue(digits)
    decreases |digits|
  {
    var init := digits[..|digits| - 1];
    var all := Zeros(k) + digits;
    assert all[..|all| - 1] == Zeros(k) + init;
    if init == [] {
      AppendNothing(Zeros(k));
      ZerosAreNothing(k);
    } else {
      ZerosCountNothing(k, init);
    }
  }

  lemma {:induction false} ZerosAreNothing(k: nat)
    ensures AllDigits(Zeros(k)) && DigitsValue(Zeros(k)) == 0
  {
    if k > 0 {
      ZerosAreNothing(k - 1);
      assert Zeros(k)[..k - 1] == Zeros(k - 1);
    }
  }

  /** A number as text: an optional plus sign, any zeros, and its decimal digits. */
  predicate Numeral(s: Bytes, n: nat, plus: bool, zeros: nat) {
    s == (if plus then ['+' as int] else []) + Zeros(zeros) + PrintDecimal(n)
  }

  /** The texts that read as a number are exactly its numerals. */
  lemma ParsesIffNumeral(s: Bytes, n: Usize)
    ensures ParseUsize(s) == Some(n) <==> exists plus, zeros :: Numeral(s, n, plus, zeros)
  {
    if ParseUsize(s) == Some(n) {
      var plus := |s| > 1 && s[0] == PLUS;
      var digits := if plus then s[1..] else s;
      var k := DigitsAreZerosAndNumber(digits);
      AppendAssoc(if plus then ['+' as int] else [], Zeros(k), PrintDecimal(n));
      AppendNothing(digits);
      assert Numeral(s, n, plus, k);
    }
    if plus, zeros :| Numeral(s, n, plus, zeros) {
      NumeralParses(s, n, plus, zeros);
    }
  }

  lemma NumeralParses(s: Bytes, n: Usize, plus: bool, zeros: nat)
    requires Numeral(s, n, plus, zeros)
    ensures ParseUsize(s) == Some(n) && Bare(s) && s != []
  {
    var digits := Zeros(zeros) + PrintDecimal(n);
    ZerosCountNothing(zeros, PrintDecimal(n));
    DigitsValueOfPrint(n);
    AppendAssoc(if plus then ['+' as int] else [], Zeros(zeros), PrintDecimal(n));
    AppendNothing(digits);
    assert IsDigit(digits[0]) && IsDigit(digits[|digits| - 1]);
    if plus {
      assert s[1..] == digits;
    }
  }

  // ----- lines

  predicate Lacks(s: Bytes, b: Byte) { b !in s }

  /** A line feed ends a line, and a carriage return before it is dropped. */
  lemma LinesOfCut(a: Bytes, rest: Bytes)
    requires Lacks(a, LF)
    ensures Lines(a + [LF] + rest) == [StripCarriageReturn(a)] + Lines(rest)
  {
    var s := a + [LF] + rest;
    assert s[|a|..|a| + 1] == [LF];
    assert OccursAt(s, [LF], |a|);
    forall j: nat | j < |a|
      ensures !OccursAt(s, [LF], j)
    {
      assert s[j] == a[j];
      NoOccurrenceAt(s, [LF], j);
    }
    assert s[..|a|] == a && s[|a| + 1..] == rest;
  }

  lemma LinesOfOne(a: Bytes)
    requires Lacks(a, LF) && a != []
    ensures Lines(a) == [a]
  {
    forall j: nat | j < |a|
      ensures !OccursAt(a, [LF], j)
    {
      NoOccurrenceAt(a, [LF], j);
    }
  }

  function JoinLines(lines: seq<Bytes>): Bytes {
    if lines == [] then []
    else if |lines| == 1 then lines[0]
    else lines[0] + ['\r' as int, '\n' as int] + JoinLines(lines[1..])
  }

  /** Lines without a carriage return, a line feed, or nothing at all. */
  predicate PlainLines(lines: seq<Bytes>) {
    forall i :: 0 <= i < |lines| ==> lines[i] != [] && Lacks(lines[i], CR) && Lacks(lines[i], LF)
  }

  /** Lines that are joined by carriage returns and line feeds are found again. */
  lemma {:induction false} LinesOfJoined(lines: seq<Bytes>)
    requires PlainLines(lines)
    ensures Lines(JoinLines(lines)) == lines
  {
    if |lines| == 1 {
      LinesOfOne(lines[0]);
    } else if lines != [] {
      LinesOfJoined(lines[1..]);
      var rest := JoinLines(lines[1..]);
      assert JoinLines(lines) == lines[0] + [CR] + [LF] + rest;
      LinesOfCut(lines[0] + [CR], rest);
      assert (lines[0] + [CR])[..|lines[0]|] == lines[0];
      HeadAndTail(lines);
    }
  }

  // ----- the length line

  /** Line `i` is the first that reads as a length, and reads as `n`. */
  ghost predicate ReadsFirst(lines: seq<Bytes>, i: nat, n: Usize) {
    && i < |lines| && LineContentLength(lines[i]) == Some(n)
    && forall j :: 0 <= j < i ==> LineContentLength(lines[j]).None?
  }

  lemma {:induction false} NoLineReads(lines: seq<Bytes>)
    ensures FirstContentLength(lines).None? <==> forall i :: 0 <= i < |lines| ==> LineContentLength(lines[i]).None?
  {
    if lines != [] {
      NoLineReads(lines[1..]);
      assert forall i :: 0 <= i < |lines| - 1 ==> lines[1..][i] == lines[i + 1];
      if forall i :: 0 <= i < |lines[1..]| ==> LineContentLength(lines[1..][i]).None? {
        assert forall i :: 0 < i < |lines| ==> lines[i] == lines[1..][i - 1];
      }
    }
  }

  lemma {:induction false} FirstReads(lines: seq<Bytes>) returns (i: nat)
    requires FirstContentLength(lines).Some?
    ensures ReadsFirst(lines, i, FirstContentLength(lines).value)
  {
    if LineContentLength(lines[0]).Some? {
      i := 0;
    } else {
      var k := FirstReads(lines[1..]);
      i := k + 1;
      assert forall j :: 0 < j <= i ==> lines[j] == lines[1..][j - 1];
    }
  }

  /** The length of a header is that of its first line that reads as one, and it has none without such a line. */
  lemma FirstLengthIff(lines: seq<Bytes>, n: Usize)
    ensures FirstContentLength(lines) == Some(n) <==> exists i: nat :: ReadsFirst(lines, i, n)
  {
    NoLineReads(lines);
    if FirstContentLength(lines).Some? {
      var k := FirstReads(lines);
      if i: nat :| ReadsFirst(lines, i, n) {
        assert i == k;
      }
    }
  }

  /** A length line: the header's name and a numeral, with white space anywhere around them. */
  ghost predicate LengthLine(line: Bytes, n: nat, a: Bytes, b: Bytes, numeral: Bytes, c: Bytes) {
    && AllSpace(a) && AllSpace(b) && AllSpace(c) && line == a + (CONTENT_LENGTH + (b + numeral)) + c
    && exists plus, zeros :: Numeral(numeral, n, plus, zeros)
  }

  /** A line reads as a length exactly if it is a length line. */
  lemma LineReadsIff(line: Bytes, n: Usize)
    ensures LineContentLength(line) == Some(n) <==> exists a, b, numeral, c :: LengthLine(line, n, a, b, numeral, c)
  {
    if LineContentLength(line) == Some(n) {
      var a, b, numeral, c := PartsOfLengthLine(line, n);
      assert LengthLine(line, n, a, b, numeral, c);
    }
    if a, b, numeral, c :| LengthLine(line, n, a, b, numeral, c) {
      LengthLineReads(line, n, a, b, numeral, c);
    }
  }

  lemma PartsOfLengthLine(line: Bytes, n: Usize) returns (a: Bytes, b: Bytes, numeral: Bytes, c: Bytes)
    requires LineContentLength(line) == Some(n)
    ensures LengthLine(line, n, a, b, numeral, c)
  {
    var trimmed := Trim(line);
    var value := trimmed[|CONTENT_LENGTH|..];
    numeral := Trim(value);
    ParsesIffNumeral(numeral, n);
    var c0, c1: Bytes;
    a, c1 := TrimMeaning(line);
    b, c0 := TrimMeaning(value);
    PrefixAndRest(CONTENT_LENGTH, trimmed);
    EndIsBare(trimmed, value, b + numeral, c0);
    c := c1;
    AppendNothing(b + numeral);
  }

  lemma LastOfAppend(a: Bytes, b: Bytes)
    requires b != []
    ensures (a + b)[|a + b| - 1] == b[|b| - 1]
  {
  }

  /** Behind a trimmed line's value there is no white space. */
  lemma EndIsBare(trimmed: Bytes, value: Bytes, body: Bytes, c: Bytes)
    requires trimmed == CONTENT_LENGTH + value && Bare(trimmed) && value == body + c && AllSpace(c)
    ensures c == []
  {
    AppendAssoc(CONTENT_LENGTH, body, c);
    if c != [] {
      LastOfAppend(CONTENT_LENGTH + body, c);
    }
  }

  lemma LengthLineReads(line: Bytes, n: Usize, a: Bytes, b: Bytes, numeral: Bytes, c: Bytes)
    requires LengthLine(line, n, a, b, numeral, c)
    ensures LineContentLength(line) == Some(n)
  {
    var plus, zeros :| Numeral(numeral, n, plus, zeros);
    NumeralParses(numeral, n, plus, zeros);
    var trimmed := CONTENT_LENGTH + (b + numeral);
    assert trimmed[0] == CONTENT_LENGTH[0] && trimmed[|trimmed| - 1] == numeral[|numeral| - 1];
    TrimOf(a, trimmed, c);
    assert trimmed[|CONTENT_LENGTH|..] == b + numeral;
    TrimOf(b, numeral, []);
    AppendNothing(b + numeral);
  }

  // ----- the text of a frame

  function Ascii(text: string): (s: Bytes)
    requires forall i :: 0 <= i < |text| ==> text[i] as int < 128
    ensures |s| == |text| && forall i :: 0 <= i < |text| ==> s[i] == text[i] as int
  {
    seq(|text|, i requires 0 <= i < |text| => text[i] as int)
  }

  lemma HeaderName(name: string)
    requires name == "Content-Length: "
    ensures (forall i :: 0 <= i < |name| ==> name[i] as int < 128) && Ascii(name) == CONTENT_LENGTH + [32]
  {
  }

  lemma HeaderEnd(end: string)
    requires end == "\r\n\r\n"
    ensures (forall i :: 0 <= i < |end| ==> end[i] as int < 128) && Ascii(end) == TERMINATOR
  {
  }

  /** The bytes before a body, as text. */
  lemma FrameText(body: Bytes)
    ensures FrameOf(body) == Ascii("Content-Length: ") + PrintDecimal(|body|) + Ascii("\r\n\r\n") + body
    ensures |body| < 10 ==> PrintDecimal(|body|) == ['0' as int + |body|]
  {
    HeaderName("Content-Length: ");
    HeaderEnd("\r\n\r\n");
  }

  // ----- frames with further header lines

  lemma PlainHasNoReturn(line: Bytes, j: nat)
    requires Lacks(line, CR) && j < |line|
    ensures line[j] != CR
  {
    assert line[j] in line;
  }

  /** Inside joined lines a carriage return is followed by a line feed and something else. */
  lemma {:induction false} NoEmptyLine(lines: seq<Bytes>, j: nat)
    requires PlainLines(lines) && j < |JoinLines(lines)|
    ensures JoinLines(lines)[j] == CR ==> j + 2 < |JoinLines(lines)| && JoinLines(lines)[j + 2] != CR
  {
    var s := JoinLines(lines);
    if j < |lines[0]| {
      PlainHasNoReturn(lines[0], j);
    } else {
      var first, rest := lines[0], JoinLines(lines[1..]);
      assert s == first + [CR, LF] + rest;
      JoinStarts(lines[1..]);
      if j == |first| {
        assert s[j + 2] == rest[0];
      } else if j > |first| + 1 {
        NoEmptyLine(lines[1..], j - |first| - 2);
        assert s[j] == rest[j - |first| - 2];
      }
    }
  }

  lemma JoinStarts(lines: seq<Bytes>)
    requires PlainLines(lines) && lines != []
    ensures JoinLines(lines) != [] && JoinLines(lines)[0] == lines[0][0] != CR
  {
    assert lines[0][0] in lines[0];
  }

  lemma NoThirdByte(s: Bytes, j: nat)
    requires j + 2 < |s| && s[j + 2] != CR
    ensures !OccursAt(s, TERMINATOR, j)
  {
    if j + 4 <= |s| {
      assert s[j..j + 4][2] == s[j + 2];
    }
  }

  lemma TerminatorFollowsLines(lines: seq<Bytes>, rest: Bytes)
    requires PlainLines(lines) && lines != []
    ensures FindSubsequence(JoinLines(lines) + TERMINATOR + rest, TERMINATOR) == Some(|JoinLines(lines)|)
  {
    var text := JoinLines(lines);
    var s := text + TERMINATOR + rest;
    assert s[|text|..|text| + 4] == TERMINATOR;
    assert OccursAt(s, TERMINATOR, |text|);
    forall j: nat | j < |text|
      ensures !OccursAt(s, TERMINATOR, j)
    {
      NoEmptyLine(lines, j);
      if s[j] == CR {
        NoThirdByte(s, j);
      } else {
        NoOccurrenceAt(s, TERMINATOR, j);
      }
    }
  }

  lemma {:induction false} JoinedIsValid(lines: seq<Bytes>)
    requires forall i :: 0 <= i < |lines| ==> ValidUtf8(lines[i])
    ensures ValidUtf8(JoinLines(lines))
  {
    if |lines| > 1 {
      JoinedIsValid(lines[1..]);
      AsciiIsUtf8([CR, LF]);
      ValidOfConcat(lines[0], [CR, LF]);
      ValidOfConcat(lines[0] + [CR, LF], JoinLines(lines[1..]));
    }
  }

  /** A header of plain lines reads as its first length line says. */
  lemma HeaderOfLines(lines: seq<Bytes>, i: nat, n: Usize, maxFrameSize: Usize)
    requires PlainLines(lines) && (forall k :: 0 <= k < |lines| ==> ValidUtf8(lines[k]))
    requires ReadsFirst(lines, i, n) && n <= maxFrameSize
    ensures HeaderLength(JoinLines(lines), maxFrameSize) == Ok(n)
  {
    JoinedIsValid(lines);
    LinesOfJoined(lines);
    FirstLengthIff(lines, n);
  }

  /**
   A frame may have any header lines around its length line, as long as none before it reads as a
   length: it decodes to its message and is consumed exactly, whatever follows it.
   */
  lemma FrameWithHeaders<M(!new)>(f: Framing<M>, maxFrameSize: Usize, m: M, lines: seq<Bytes>, i: nat, rest: Bytes)
    requires IsDap(f, maxFrameSize) && ParseUndoesSer(f)
    requires f.ser(m).Some? && |f.ser(m).value| <= maxFrameSize
    requires PlainLines(lines) && (forall k :: 0 <= k < |lines| ==> ValidUtf8(lines[k]))
    requires ReadsFirst(lines, i, |f.ser(m).value|)
    ensures DecodeFrame(f, JoinLines(lines) + TERMINATOR + f.ser(m).value + rest) ==
            Message(m, |JoinLines(lines)| + 4 + |f.ser(m).value|)
  {
    var text, body := JoinLines(lines), f.ser(m).value;
    var s := text + TERMINATOR + body + rest;
    AppendAssoc(text + TERMINATOR, body, rest);
    TerminatorFollowsLines(lines, body + rest);
    HeaderOfLines(lines, i, |body|, maxFrameSize);
    assert s[..|text|] == text;
    assert s[|text| + 4..|text| + 4 + |body|] == body;
  }

  // ----- every verdict

  /** The first terminator is at `p`. */
  ghost predicate EndsHeader(buf: Bytes, p: nat) {
    OccursAt(buf, TERMINATOR, p) && forall j: nat :: j < p ==> !OccursAt(buf, TERMINATOR, j)
  }

  /** No line of the header reads as a length. */
  ghost predicate NoLength(header: Bytes) {
    forall i :: 0 <= i < |Lines(header)| ==> LineContentLength(Lines(header)[i]).None?
  }

  ghost predicate HasLength(header: Bytes, n: Usize) { exists i: nat :: ReadsFirst(Lines(header), i, n) }

  /** Without a terminator the decoder waits, for at most 4096 bytes. */
  lemma VerdictWithoutHeader<M>(f: Framing<M>, maxFrameSize: Usize, buf: Bytes)
    requires forall p: nat :: !OccursAt(buf, TERMINATOR, p)
    ensures DecodeFrame(f, buf) == if |buf| > 4096 then Failed(HeaderTooLong) else NeedMore
  {
  }

  /** With one, which verdict is given when. */
  lemma VerdictOfHeader<M>(f: Framing<M>, maxFrameSize: Usize, buf: Bytes, p: nat)
    requires IsDap(f, maxFrameSize) && EndsHeader(buf, p)
    ensures DecodeFrame(f, buf) == Failed(BadHeader(NotUtf8)) <==> !ValidUtf8(buf[..p])
    ensures DecodeFrame(f, buf) == Failed(BadHeader(MissingContentLength)) <==>
            ValidUtf8(buf[..p]) && NoLength(buf[..p])
  {
    assert FindSubsequence(buf, TERMINATOR) == Some(p);
    NoLineReads(Lines(buf[..p]));
  }

  lemma LengthOfHeader(header: Bytes, n: Usize, maxFrameSize: Usize)
    requires ValidUtf8(header) && HasLength(header, n)
    ensures HeaderLength(header, maxFrameSize) == if n > maxFrameSize then Err(FrameTooLarge) else Ok(n)
  {
    FirstLengthIff(Lines(header), n);
  }

  lemma VerdictOfLength<M>(f: Framing<M>, maxFrameSize: Usize, buf: Bytes, p: nat, n: Usize)
    requires IsDap(f, maxFrameSize) && EndsHeader(buf, p) && ValidUtf8(buf[..p]) && HasLength(buf[..p], n)
    ensures DecodeFrame(f, buf) ==
            if n > maxFrameSize then Failed(BadHeader(FrameTooLarge))
            else if |buf| < p + 4 + n then NeedMore
            else match f.parse(buf[p + 4..p + 4 + n])
              case None => Failed(BadBody)
              case Some(m) => Message(m, p + 4 + n)
  {
    assert FindSubsequence(buf, TERMINATOR) == Some(p);
    LengthOfHeader(buf[..p], n, maxFrameSize);
    assert f.header(buf[..p]) == HeaderLength(buf[..p], maxFrameSize);
  }
}
