/**
 The DAP frame codec: `Content-Length: N\r\n\r\n` followed by N bytes of JSON.

 `DecodeFrame` and `EncodeFrame` are the specification on byte sequences; `DapCodec`
 is the imperative codec over a buffer that is consumed in place.
 */
module Framing {
  import opened Prelude
  import opened ByteText

  /** `\r\n\r\n` */
  const TERMINATOR: Bytes := [CR, LF, CR, LF]

  /** `Content-Length:` */
  const CONTENT_LENGTH: Bytes := [67, 111, 110, 116, 101, 110, 116, 45, 76, 101, 110, 103, 116, 104, 58]

  const MAX_HEADER := 4096

  /**
   What a frame decoder is made of: how it reads the header text, and the JSON library it
   calls. `parse` is `serde_json::from_slice` and `ser` is `serde_json::to_vec`. The facts
   about streams hold for every way of reading headers; `IsDap` picks the protocol's own.
   */
  datatype Framing<!M> = Framing(
    header: Bytes -> Result<Usize, HeaderError>,
    parse: Bytes -> Option<M>,
    ser: M -> Option<Bytes>)

  ghost predicate IsDap<M>(f: Framing<M>, maxFrameSize: Usize) {
    forall h: Bytes :: f.header(h) == HeaderLength(h, maxFrameSize)
  }

  /** The JSON hypothesis of the round trips: parsing undoes serialising. */
  ghost predicate ParseUndoesSer<M(!new)>(f: Framing<M>) {
    forall m :: f.ser(m).Some? ==> f.parse(f.ser(m).value) == Some(m)
  }

  datatype HeaderError = NotUtf8 | MissingContentLength | FrameTooLarge

  datatype DecodeError = HeaderTooLong | BadHeader(reason: HeaderError) | BadBody

  datatype Decoded<M> =
    | NeedMore
    | Message(message: M, consumed: nat)
    | Failed(error: DecodeError)

  // ----- the header

  function LineContentLength(line: Bytes): Option<Usize> {
    var trimmed := Trim(line);
    if CONTENT_LENGTH <= trimmed then ParseUsize(Trim(trimmed[|CONTENT_LENGTH|..])) else None
  }

  function FirstContentLength(lines: seq<Bytes>): Option<Usize> {
    if lines == [] then None
    else Or(LineContentLength(lines[0]), FirstContentLength(lines[1..]))
  }

  /** What the header text says, before any body byte is looked at. */
  function HeaderLength(header: Bytes, maxFrameSize: Usize): Result<Usize, HeaderError> {
    if !ValidUtf8(header) then Err(NotUtf8)
    else match FirstContentLength(Lines(header))
      case None => Err(MissingContentLength)
      case Some(n) => if n > maxFrameSize then Err(FrameTooLarge) else Ok(n)
  }

  // ----- decoding

  function DecodeFrame<M>(f: Framing<M>, buf: Bytes): Decoded<M> {
    match FindSubsequence(buf, TERMINATOR)
    case None => if |buf| > MAX_HEADER then Failed(HeaderTooLong) else NeedMore
    case Some(headerEnd) =>
      assert OccursAt(buf, TERMINATOR, headerEnd);
      match f.header(buf[..headerEnd])
      case Err(e) => Failed(BadHeader(e))
      case Ok(contentLength) =>
        var total := headerEnd + 4 + contentLength;
        if |buf| < total then NeedMore
        else match f.parse(buf[headerEnd + 4..total])
          case None => Failed(BadBody)
          case Some(m) => Message(m, total)
  }

  /** A decoded message consumes a non-empty prefix of the buffer. */
  lemma MessageConsumes<M>(f: Framing<M>, buf: Bytes)
    ensures DecodeFrame(f, buf).Message? ==> 4 <= DecodeFrame(f, buf).consumed <= |buf|
  {
  }

  /** A message or a verdict reached after the terminator is final: more bytes do not change it. */
  lemma DecodeIsStable<M>(f: Framing<M>, buf: Bytes, more: Bytes)
    ensures DecodeFrame(f, buf).Message? ==> DecodeFrame(f, buf + more) == DecodeFrame(f, buf)
    ensures DecodeFrame(f, buf).Failed? && DecodeFrame(f, buf) != Failed(HeaderTooLong) ==>
              DecodeFrame(f, buf + more) == DecodeFrame(f, buf)
  {
    var found := FindSubsequence(buf, TERMINATOR);
    if found.Some? {
      assert OccursAt(buf, TERMINATOR, found.value);
      FindIsLocal(buf, more, TERMINATOR, found.value);
      var end := found.value;
      assert (buf + more)[..end] == buf[..end];
      var length := f.header(buf[..end]);
      if length.Ok? && |buf| >= end + 4 + length.value {
        assert (buf + more)[end + 4..end + 4 + length.value] == buf[end + 4..end + 4 + length.value];
      }
    }
  }

  /** Conversely, a message that lies within a prefix of the buffer is found in the prefix. */
  lemma DecodeFromPrefix<M>(f: Framing<M>, buf: Bytes, more: Bytes)
    requires DecodeFrame(f, buf + more).Message? && DecodeFrame(f, buf + more).consumed <= |buf|
    ensures DecodeFrame(f, buf) == DecodeFrame(f, buf + more)
  {
    var end := FindSubsequence(buf + more, TERMINATOR).value;
    assert OccursAt(buf + more, TERMINATOR, end);
    FindIsLocal(buf, more, TERMINATOR, end);
    var total := DecodeFrame(f, buf + more).consumed;
    assert (buf + more)[..end] == buf[..end];
    assert (buf + more)[end + 4..total] == buf[end + 4..total];
  }

  // ----- encoding

  function FrameHeader(bodyLength: nat): Bytes {
    CONTENT_LENGTH + [32] + PrintDecimal(bodyLength) + TERMINATOR
  }

  function FrameOf(body: Bytes): Bytes { FrameHeader(|body|) + body }

  function EncodeFrame<M>(f: Framing<M>, m: M): Option<Bytes> {
    match f.ser(m)
    case None => None
    case Some(body) => Some(FrameOf(body))
  }

  /** The printed header without its terminator. */
  function HeaderText(bodyLength: nat): Bytes { CONTENT_LENGTH + [32] + PrintDecimal(bodyLength) }

  lemma FirstTerminatorIsTheHeaders(bodyLength: nat, rest: Bytes)
    ensures FindSubsequence(FrameHeader(bodyLength) + rest, TERMINATOR) == Some(|HeaderText(bodyLength)|)
  {
    var text := HeaderText(bodyLength);
    var s := FrameHeader(bodyLength) + rest;
    assert s == text + TERMINATOR + rest;
    assert s[|text|..|text| + 4] == TERMINATOR;
    assert OccursAt(s, TERMINATOR, |text|);
    forall j: nat | j < |text|
      ensures !OccursAt(s, TERMINATOR, j)
    {
      assert s[j] == text[j] != CR;
      NoOccurrenceAt(s, TERMINATOR, j);
    }
  }

  lemma TrimKeeps(s: Bytes)
    requires s != [] && !IsSpace(s[0]) && !IsSpace(s[|s| - 1])
    ensures Trim(s) == s
  {
  }

  /** Reading back a printed header gives the number that was printed. */
  lemma HeaderReadsBack(n: Usize, maxFrameSize: Usize)
    requires n <= maxFrameSize
    ensures HeaderLength(HeaderText(n), maxFrameSize) == Ok(n)
  {
    var text := HeaderText(n);
    AsciiIsUtf8(text);
    forall j: nat | j < |text|
      ensures !OccursAt(text, [LF], j)
    {
      NoOccurrenceAt(text, [LF], j);
    }
    assert Lines(text) == [text];
    TrimKeeps(text);
    var value := text[|CONTENT_LENGTH|..];
    assert value == [32] + PrintDecimal(n);
    assert value[1..] == PrintDecimal(n);
    var digits := PrintDecimal(n);
    assert IsDigit(digits[0]) && IsDigit(digits[|digits| - 1]);
    TrimKeeps(digits);
    assert TrimStart(value) == TrimStart(digits);
    ParsePrintInverse(n);
  }

  /** One frame, whatever follows it, decodes to the message it was made from. */
  lemma FrameRoundTrip<M(!new)>(f: Framing<M>, maxFrameSize: Usize, m: M, rest: Bytes)
    requires IsDap(f, maxFrameSize) && ParseUndoesSer(f)
    requires f.ser(m).Some? && |f.ser(m).value| <= maxFrameSize
    ensures DecodeFrame(f, EncodeFrame(f, m).value + rest) == Message(m, |EncodeFrame(f, m).value|)
  {
    var body := f.ser(m).value;
    var n := |body|;
    var s := FrameOf(body) + rest;
    AppendAssoc(FrameHeader(n), body, rest);
    FirstTerminatorIsTheHeaders(n, body + rest);
    assert s[..|HeaderText(n)|] == HeaderText(n);
    HeaderReadsBack(n, maxFrameSize);
    var total := |HeaderText(n)| + 4 + n;
    assert total == |FrameOf(body)|;
    assert s[|HeaderText(n)| + 4..total] == body;
  }

  /** A header is at most forty bytes, so the 4096-byte guard never fires on encoder output. */
  lemma HeaderIsShort(n: Usize)
    ensures |FrameHeader(n)| <= 40
  {
    UsizeHasTwentyDigits(n);
  }

  /** A strict prefix of a frame makes the decoder wait. */
  lemma PartialFrameWaits<M>(f: Framing<M>, maxFrameSize: Usize, body: Bytes, k: nat)
    requires IsDap(f, maxFrameSize)
    requires |body| <= maxFrameSize && k < |FrameOf(body)|
    ensures DecodeFrame(f, FrameOf(body)[..k]) == NeedMore
  {
    var n := |body|;
    var frame := FrameOf(body);
    var text := HeaderText(n);
    FirstTerminatorIsTheHeaders(n, body);
    SplitAt(frame, k);
    HeaderIsShort(n);
    if k >= |text| + 4 {
      FindIsLocal(frame[..k], frame[k..], TERMINATOR, |text|);
      assert frame[..k][..|text|] == text;
      HeaderReadsBack(n, maxFrameSize);
    } else {
      OccurrencesKeep(frame[..k], frame[k..], TERMINATOR);
    }
  }

  // ----- the imperative codec

  /** A growable byte buffer; only its contents and capacity are observable. */
  class BytesMut {
    var data: Bytes
    var capacity: nat

    ghost predicate Valid() reads this { |data| <= capacity }

    constructor ()
      ensures Valid() && data == []
    {
      data, capacity := [], 0;
    }

    method Reserve(additional: nat)
      requires Valid()
      modifies this`capacity
      ensures Valid() && capacity >= old(capacity) && capacity >= |data| + additional
    {
      if capacity < |data| + additional {
        capacity := |data| + additional;
      }
    }

    method ExtendFromSlice(slice: Bytes)
      requires Valid()
      modifies this
      ensures Valid() && data == old(data) + slice
    {
      Reserve(|slice|);
      data := data + slice;
    }

    method Advance(count: nat)
      requires Valid() && count <= |data|
      modifies this
      ensures Valid() && data == old(data)[count..]
    {
      data, capacity := data[count..], capacity - count;
    }
  }

  class DapCodec<M> {
    const maxFrameSize: Usize
    const f: Framing<M>

    ghost predicate Valid() { IsDap(f, maxFrameSize) }

    constructor (maxFrameSize: Usize, parse: Bytes -> Option<M>, ser: M -> Option<Bytes>)
      ensures Valid() && this.maxFrameSize == maxFrameSize && f.parse == parse && f.ser == ser
    {
      this.maxFrameSize := maxFrameSize;
      this.f := Framing(h => HeaderLength(h, maxFrameSize), parse, ser);
    }

    /** Extract one message. The buffer moves past a decoded frame and is otherwise untouched. */
    method Decode(src: BytesMut) returns (r: Result<Option<M>, DecodeError>)
      requires Valid() && src.Valid()
      modifies src
      ensures src.Valid()
      ensures match DecodeFrame(f, old(src.data))
        case NeedMore => r == Ok(None) && src.data == old(src.data)
        case Message(m, n) => r == Ok(Some(m)) && n <= |old(src.data)| && src.data == old(src.data)[n..]
        case Failed(e) => r == Err(e) && src.data == old(src.data)
    {
      var headerEnd := FindSubsequence(src.data, TERMINATOR);
      if headerEnd.None? {
        if |src.data| > MAX_HEADER {
          return Err(HeaderTooLong);
        }
        return Ok(None);
      }
      assert OccursAt(src.data, TERMINATOR, headerEnd.value);
      var header := src.data[..headerEnd.value];
      if !ValidUtf8(header) {
        return Err(BadHeader(NotUtf8));
      }
      var contentLength := FirstContentLength(Lines(header));
      if contentLength.None? {
        return Err(BadHeader(MissingContentLength));
      }
      if contentLength.value > maxFrameSize {
        return Err(BadHeader(FrameTooLarge));
      }
      var bodyStart := headerEnd.value + 4;
      var totalNeeded := bodyStart + contentLength.value;
      if |src.data| < totalNeeded {
        src.Reserve(totalNeeded - |src.data|);
        return Ok(None);
      }
      var message := f.parse(src.data[bodyStart..totalNeeded]);
      if message.None? {
        return Err(BadBody);
      }
      src.Advance(totalNeeded);
      return Ok(Some(message.value));
    }

    /** Append one frame; a message that does not serialise leaves the buffer alone. */
    method Encode(item: M, dst: BytesMut) returns (ok: bool)
      requires Valid() && dst.Valid()
      modifies dst
      ensures dst.Valid() && ok == EncodeFrame(f, item).Some?
      ensures dst.data == if ok then old(dst.data) + EncodeFrame(f, item).value else old(dst.data)
    {
      var body := f.ser(item);
      if body.None? {
        return false;
      }
      var header := FrameHeader(|body.value|);
      dst.Reserve(|header| + |body.value|);
      dst.ExtendFromSlice(header);
      dst.ExtendFromSlice(body.value);
      assert header + body.value == FrameOf(body.value);
      return true;
    }
  }
}
