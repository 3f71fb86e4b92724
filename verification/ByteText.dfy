/**
 The byte-level text operations the DAP framing uses: first-occurrence search,
 UTF-8 validation, line splitting, trimming, and decimal printing and parsing.
 */
module ByteText {
  import opened Prelude

  type Byte = b: int | 0 <= b < 256

  type Bytes = seq<Byte>

  /** A `usize` of a 64-bit target. */
  const USIZE_LIMIT := 0x1_0000_0000_0000_0000

  type Usize = n: int | 0 <= n < USIZE_LIMIT

  const CR: Byte := 13
  const LF: Byte := 10
  const PLUS: Byte := 43
  const ZERO: Byte := 48

  // ----- first-occurrence search

  predicate OccursAt(haystack: Bytes, needle: Bytes, i: nat) {
    i + |needle| <= |haystack| && haystack[i..i + |needle|] == needle
  }

  function FindSubsequence(haystack: Bytes, needle: Bytes): (r: Option<nat>)
    requires needle != []
    ensures r.Some? ==>
              && OccursAt(haystack, needle, r.value)
              && forall j: nat :: j < r.value ==> !OccursAt(haystack, needle, j)
    ensures r.None? ==> forall j: nat :: !OccursAt(haystack, needle, j)
  {
    FindFrom(haystack, needle, 0)
  }

  function FindFrom(haystack: Bytes, needle: Bytes, i: nat): (r: Option<nat>)
    requires needle != []
    requires forall j: nat :: j < i ==> !OccursAt(haystack, needle, j)
    ensures r.Some? ==>
              && OccursAt(haystack, needle, r.value)
              && forall j: nat :: j < r.value ==> !OccursAt(haystack, needle, j)
    ensures r.None? ==> forall j: nat :: !OccursAt(haystack, needle, j)
    decreases |haystack| - i
  {
    if i + |needle| > |haystack| then None
    else if haystack[i..i + |needle|] == needle then Some(i)
    else assert !OccursAt(haystack, needle, i); FindFrom(haystack, needle, i + 1)
  }

  /** A search result depends only on the bytes up to the end of the match. */
  lemma FindIsLocal(a: Bytes, b: Bytes, needle: Bytes, pos: nat)
    requires needle != [] && pos + |needle| <= |a|
    ensures FindSubsequence(a, needle) == Some(pos) <==> FindSubsequence(a + b, needle) == Some(pos)
  {
    OccurrencesKeep(a, b, needle);
  }

  lemma OccurrencesKeep(a: Bytes, b: Bytes, needle: Bytes)
    ensures forall j: nat :: j + |needle| <= |a| ==> (OccursAt(a, needle, j) <==> OccursAt(a + b, needle, j))
  {
  }

  /** A needle cannot start where its first byte is missing. */
  lemma NoOccurrenceAt(haystack: Bytes, needle: Bytes, i: nat)
    requires needle != [] && i < |haystack| && haystack[i] != needle[0]
    ensures !OccursAt(haystack, needle, i)
  {
  }

  // ----- UTF-8 validation (Section 4 of RFC 3629)

  predicate IsContinuation(b: Byte) { 0x80 <= b <= 0xBF }

  predicate ValidUtf8(s: Bytes)
    decreases |s|
  {
    if s == [] then true
    else if s[0] < 0x80 then ValidUtf8(s[1..])
    else if 0xC2 <= s[0] <= 0xDF then
      |s| >= 2 && IsContinuation(s[1]) && ValidUtf8(s[2..])
    else if 0xE0 <= s[0] <= 0xEF then
      && |s| >= 3 && IsContinuation(s[1]) && IsContinuation(s[2])
      && (s[0] == 0xE0 ==> s[1] >= 0xA0)
      && (s[0] == 0xED ==> s[1] <= 0x9F)
      && ValidUtf8(s[3..])
    else if 0xF0 <= s[0] <= 0xF4 then
      && |s| >= 4 && IsContinuation(s[1]) && IsContinuation(s[2]) && IsContinuation(s[3])
      && (s[0] == 0xF0 ==> s[1] >= 0x90)
      && (s[0] == 0xF4 ==> s[1] <= 0x8F)
      && ValidUtf8(s[4..])
    else false
  }

  lemma {:induction false} AsciiIsUtf8(s: Bytes)
    requires forall i :: 0 <= i < |s| ==> s[i] < 0x80
    ensures ValidUtf8(s)
  {
    if s != [] {
      AsciiIsUtf8(s[1..]);
    }
  }

  // ----- lines and trimming

  predicate IsSpace(b: Byte) { b == 32 || 9 <= b <= 13 }

  function TrimStart(s: Bytes): Bytes {
    if s != [] && IsSpace(s[0]) then TrimStart(s[1..]) else s
  }

  function TrimEnd(s: Bytes): Bytes {
    if s != [] && IsSpace(s[|s| - 1]) then TrimEnd(s[..|s| - 1]) else s
  }

  function Trim(s: Bytes): Bytes { TrimEnd(TrimStart(s)) }

  function StripCarriageReturn(line: Bytes): Bytes {
    if line != [] && line[|line| - 1] == CR then line[..|line| - 1] else line
  }

  /** Rust's `str::lines`: a final line without a line feed keeps its text as is. */
  function Lines(s: Bytes): seq<Bytes>
    decreases |s|
  {
    if s == [] then []
    else match FindSubsequence(s, [LF])
      case None => [s]
      case Some(i) =>
        assert OccursAt(s, [LF], i);
        [StripCarriageReturn(s[..i])] + Lines(s[i + 1..])
  }

  // ----- decimal numbers

  predicate IsDigit(b: Byte) { ZERO <= b <= ZERO + 9 }

  predicate AllDigits(s: Bytes) { forall i :: 0 <= i < |s| ==> IsDigit(s[i]) }

  function DigitsValue(s: Bytes): nat
    requires AllDigits(s)
  {
    if s == [] then 0 else DigitsValue(s[..|s| - 1]) * 10 + (s[|s| - 1] - ZERO)
  }

  /** Rust's `str::parse::<usize>`: an optional plus sign, then digits, without overflow. */
  function ParseUsize(s: Bytes): Option<Usize> {
    var digits := if |s| > 1 && s[0] == PLUS then s[1..] else s;
    if digits == [] || !AllDigits(digits) || DigitsValue(digits) >= USIZE_LIMIT then None
    else Some(DigitsValue(digits))
  }

  function PrintDecimal(n: nat): (s: Bytes)
    ensures s != [] && AllDigits(s)
  {
    if n < 10 then [ZERO + n] else PrintDecimal(n / 10) + [ZERO + n % 10]
  }

  lemma {:induction false} DigitsValueOfPrint(n: nat)
    ensures DigitsValue(PrintDecimal(n)) == n
  {
    if n < 10 {
      assert [ZERO + n][..0] == [];
    } else {
      DigitsValueOfPrint(n / 10);
      var s := PrintDecimal(n);
      assert s[..|s| - 1] == PrintDecimal(n / 10);
    }
  }

  /** Parsing inverts printing on every value a `usize` can hold. */
  lemma ParsePrintInverse(n: Usize)
    ensures ParseUsize(PrintDecimal(n)) == Some(n)
  {
    DigitsValueOfPrint(n);
    assert IsDigit(PrintDecimal(n)[0]);
  }

  function Pow10(k: nat): nat { if k == 0 then 1 else 10 * Pow10(k - 1) }

  lemma {:induction false} PrintedLength(n: nat, k: nat)
    requires 0 < k && n < Pow10(k)
    ensures |PrintDecimal(n)| <= k
  {
    if n >= 10 {
      PrintedLength(n / 10, k - 1);
    }
  }

  /** A printed `usize` has at most twenty digits. */
  lemma UsizeHasTwentyDigits(n: Usize)
    ensures |PrintDecimal(n)| <= 20
  {
    assert Pow10(5) == 100000;
    assert Pow10(10) == 100000 * Pow10(5);
    assert Pow10(15) == 100000 * Pow10(10);
    assert Pow10(20) == 100000 * Pow10(15);
    PrintedLength(n, 20);
  }
}
