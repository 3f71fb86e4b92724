/**
 The codec on whole byte streams: chunks arrive in arbitrary pieces, each is appended to the
 buffer, and the buffer is decoded until the decoder waits or fails.
 */
module FrameStream {
  import opened Prelude
  import opened ByteText
  import opened Framing

  /** What a reader has seen: messages in order, the undecoded bytes, and the fatal error if any. */
  datatype Reading<M> = Reading(messages: seq<M>, rest: Bytes, failure: Option<DecodeError>)

  /** Decode one buffer until the decoder waits or fails. */
  function Drain<M>(f: Framing<M>, buf: Bytes): (r: Reading<M>)
    decreases |buf|
  {
    match DecodeFrame(f, buf)
    case NeedMore => Reading([], buf, None)
    case Failed(e) => Reading([], buf, Some(e))
    case Message(m, n) =>
      MessageConsumes(f, buf);
      var later := Drain(f, buf[n..]);
      later.(messages := [m] + later.messages)
  }

  /** Decode what a reader holds. A reader stops for good at its first error. */
  function Continue<M>(f: Framing<M>, r: Reading<M>): Reading<M> {
    if r.failure.Some? then r
    else
      var d := Drain(f, r.rest);
      d.(messages := r.messages + d.messages)
  }

  function Feed<M>(f: Framing<M>, r: Reading<M>, chunk: Bytes): Reading<M> {
    if r.failure.Some? then r else Continue(f, r.(rest := r.rest + chunk))
  }

  function Deliver<M>(f: Framing<M>, chunks: seq<Bytes>): Reading<M> {
    if chunks == [] then Reading([], [], None)
    else Feed(f, Deliver(f, chunks[..|chunks| - 1]), chunks[|chunks| - 1])
  }

  function Flatten(chunks: seq<Bytes>): Bytes {
    if chunks == [] then [] else Flatten(chunks[..|chunks| - 1]) + chunks[|chunks| - 1]
  }

  /** Same messages, same verdict, and the same waiting bytes if the verdict is to wait. */
  predicate SameOutcome<M(==)>(a: Reading<M>, b: Reading<M>) {
    && a.messages == b.messages
    && a.failure == b.failure
    && (a.failure.None? ==> a.rest == b.rest)
  }

  // ----- chunking independence

  /** Each frame's terminator, where present, ends within 4097 bytes of the frame's start. */
  predicate Tame<M>(f: Framing<M>, s: Bytes)
    decreases |s|
  {
    var end := FindSubsequence(s, TERMINATOR);
    && (end.Some? ==> end.value + 4 <= MAX_HEADER + 1)
    && match DecodeFrame(f, s)
       case Message(_, n) => MessageConsumes(f, s); Tame(f, s[n..])
       case _ => true
  }

  lemma NoTerminatorInPrefix(a: Bytes, b: Bytes)
    requires FindSubsequence(a, TERMINATOR).None?
    ensures FindSubsequence(a + b, TERMINATOR).Some? ==> FindSubsequence(a + b, TERMINATOR).value + 4 > |a|
  {
    OccurrencesKeep(a, b, TERMINATOR);
  }

  /** Cutting a tame stream in two: draining the first part and then feeding the second. */
  lemma {:induction false} FeedAfterDrain<M>(f: Framing<M>, a: Bytes, b: Bytes)
    requires Tame(f, a + b)
    ensures SameOutcome(Feed(f, Drain(f, a), b), Drain(f, a + b))
    decreases |a|
  {
    DecodeIsStable(f, a, b);
    match DecodeFrame(f, a)
    case NeedMore =>
    case Failed(e) =>
      if e == HeaderTooLong {
        NoTerminatorInPrefix(a, b);
      }
    case Message(m, n) =>
      MessageConsumes(f, a);
      DropOfAppend(a, b, n);
      FeedAfterDrain(f, a[n..], b);
      var later := Drain(f, a[n..]);
      AppendAssoc([m], later.messages, Drain(f, later.rest + b).messages);
  }

  lemma {:induction false} TamePrefix<M>(f: Framing<M>, a: Bytes, b: Bytes)
    requires Tame(f, a + b)
    ensures Tame(f, a)
    decreases |a|
  {
    DecodeIsStable(f, a, b);
    var end := FindSubsequence(a, TERMINATOR);
    if end.Some? {
      assert OccursAt(a, TERMINATOR, end.value);
      FindIsLocal(a, b, TERMINATOR, end.value);
    }
    var d := DecodeFrame(f, a);
    if d.Message? {
      MessageConsumes(f, a);
      DropOfAppend(a, b, d.consumed);
      TamePrefix(f, a[d.consumed..], b);
    }
  }

  /** On a tame stream every split gives the outcome of decoding the whole stream at once. */
  lemma {:induction false} ChunkingIndependence<M>(f: Framing<M>, chunks: seq<Bytes>)
    requires Tame(f, Flatten(chunks))
    ensures SameOutcome(Deliver(f, chunks), Drain(f, Flatten(chunks)))
  {
    if chunks == [] {
      assert FindSubsequence([], TERMINATOR).None?;
    } else {
      var init, last := chunks[..|chunks| - 1], chunks[|chunks| - 1];
      TamePrefix(f, Flatten(init), last);
      ChunkingIndependence(f, init);
      FeedAfterDrain(f, Flatten(init), last);
    }
  }

  /** In a stream that is not tame, some cut makes the header guard fire on a header that has an end. */
  lemma {:induction false} UntameCut<M>(f: Framing<M>, s: Bytes) returns (k: nat)
    requires !Tame(f, s)
    ensures k <= |s|
    ensures Drain(f, s[..k]).failure == Some(HeaderTooLong)
    ensures Drain(f, s[..k]).messages != Drain(f, s).messages || Drain(f, s).failure != Some(HeaderTooLong)
    decreases |s|
  {
    var end := FindSubsequence(s, TERMINATOR).value;
    assert OccursAt(s, TERMINATOR, end);
    if end + 4 > MAX_HEADER + 1 {
      k := MAX_HEADER + 1;
      SplitAt(s, k);
      OccurrencesKeep(s[..k], s[k..], TERMINATOR);
      assert FindSubsequence(s[..k], TERMINATOR).None?;
    } else {
      var d := DecodeFrame(f, s);
      var n := d.consumed;
      MessageConsumes(f, s);
      var j := UntameCut(f, s[n..]);
      k := n + j;
      SplitAt(s, k);
      DecodeFromPrefix(f, s[..k], s[k..]);
      assert s[..k][n..] == s[n..][..j];
      ConsInjective(d.message, Drain(f, s[n..][..j]).messages, Drain(f, s[n..]).messages);
    }
  }

  /** A stream that is not tame has a split with another outcome than decoding it at once. */
  lemma UntameSplit<M>(f: Framing<M>, stream: Bytes) returns (chunks: seq<Bytes>)
    requires !Tame(f, stream)
    ensures Flatten(chunks) == stream && !SameOutcome(Deliver(f, chunks), Drain(f, stream))
  {
    var k := UntameCut(f, stream);
    DeliverTwo(f, stream[..k], stream[k..]);
    SplitAt(stream, k);
    chunks := [stream[..k], stream[k..]];
  }

  /** Exactly the tame streams decode the same way however they are cut. */
  lemma ChunkingIndependentIffTame<M>(f: Framing<M>, stream: Bytes)
    ensures Tame(f, stream) <==>
            forall chunks: seq<Bytes> :: Flatten(chunks) == stream ==> SameOutcome(Deliver(f, chunks), Drain(f, stream))
  {
    if Tame(f, stream) {
      forall chunks: seq<Bytes> | Flatten(chunks) == stream
        ensures SameOutcome(Deliver(f, chunks), Drain(f, stream))
      {
        ChunkingIndependence(f, chunks);
      }
    } else {
      var chunks := UntameSplit(f, stream);
    }
  }

  lemma DeliverSnoc<M>(f: Framing<M>, chunks: seq<Bytes>, last: Bytes)
    ensures Deliver(f, chunks + [last]) == Feed(f, Deliver(f, chunks), last)
    ensures Flatten(chunks + [last]) == Flatten(chunks) + last
  {
  }

  lemma FeedFirst<M>(f: Framing<M>, a: Bytes)
    ensures Feed(f, Reading([], [], None), a) == Drain(f, a)
  {
    AppendNothing(a);
    AppendNothing(Drain(f, a).messages);
  }

  lemma DeliverTwo<M>(f: Framing<M>, a: Bytes, b: Bytes)
    ensures Deliver(f, [a, b]) == Feed(f, Drain(f, a), b)
    ensures Flatten([a, b]) == a + b
  {
    DeliverSnoc(f, [], a);
    DeliverSnoc(f, [a], b);
    FeedFirst(f, a);
    assert [] + [a] == [a] && [a] + [b] == [a, b];
    AppendNothing(a);
  }

  // ----- stream round trip

  ghost predicate Encodable<M>(f: Framing<M>, maxFrameSize: Usize, messages: seq<M>) {
    forall i :: 0 <= i < |messages| ==> f.ser(messages[i]).Some? && |f.ser(messages[i]).value| <= maxFrameSize
  }

  function EncodeAll<M>(f: Framing<M>, messages: seq<M>): Bytes
    requires forall i :: 0 <= i < |messages| ==> f.ser(messages[i]).Some?
  {
    if messages == [] then []
    else EncodeFrame(f, messages[0]).value + EncodeAll(f, messages[1..])
  }

  /** A frame in front of a tame stream: decoded first, and the whole is tame. */
  lemma FrameInFront<M(!new)>(f: Framing<M>, maxFrameSize: Usize, m: M, rest: Bytes)
    requires IsDap(f, maxFrameSize) && ParseUndoesSer(f)
    requires f.ser(m).Some? && |f.ser(m).value| <= maxFrameSize
    ensures var s := EncodeFrame(f, m).value + rest;
            && (Tame(f, rest) ==> Tame(f, s))
            && Drain(f, s) == Drain(f, rest).(messages := [m] + Drain(f, rest).messages)
  {
    var body := f.ser(m).value;
    AppendAssoc(FrameHeader(|body|), body, rest);
    DropOfAppend(FrameOf(body), rest, |FrameOf(body)|);
    AppendNothing(rest);
    FrameRoundTrip(f, maxFrameSize, m, rest);
    FirstTerminatorIsTheHeaders(|body|, body + rest);
    HeaderIsShort(|body|);
  }

  lemma DrainPartial<M>(f: Framing<M>, maxFrameSize: Usize, body: Bytes, k: nat)
    requires IsDap(f, maxFrameSize) && |body| <= maxFrameSize && k < |FrameOf(body)|
    ensures Tame(f, FrameOf(body)[..k])
    ensures Drain(f, FrameOf(body)[..k]) == Reading([], FrameOf(body)[..k], None)
  {
    PartialFrameWaits(f, maxFrameSize, body, k);
    PartialFrameIsTame(f, maxFrameSize, body, k);
  }

  /** Encoded frames in front of a tail on which the decoder waits: tame, and decoded exactly. */
  lemma {:induction false} DrainEncoded<M(!new)>(f: Framing<M>, maxFrameSize: Usize, messages: seq<M>, tail: Bytes)
    requires IsDap(f, maxFrameSize) && ParseUndoesSer(f) && Encodable(f, maxFrameSize, messages)
    requires Tame(f, tail) && Drain(f, tail) == Reading([], tail, None)
    ensures Tame(f, EncodeAll(f, messages) + tail)
    ensures Drain(f, EncodeAll(f, messages) + tail) == Reading(messages, tail, None)
  {
    if messages == [] {
      AppendNothing(tail);
    } else {
      var first, later := EncodeFrame(f, messages[0]).value, EncodeAll(f, messages[1..]);
      AppendAssoc(first, later, tail);
      HeadAndTail(messages);
      DrainEncoded(f, maxFrameSize, messages[1..], tail);
      FrameInFront(f, maxFrameSize, messages[0], later + tail);
    }
  }

  lemma PartialFrameIsTame<M>(f: Framing<M>, maxFrameSize: Usize, body: Bytes, k: nat)
    requires IsDap(f, maxFrameSize) && |body| <= maxFrameSize && k < |FrameOf(body)|
    ensures Tame(f, FrameOf(body)[..k])
  {
    PartialFrameWaits(f, maxFrameSize, body, k);
    var frame := FrameOf(body);
    var end := FindSubsequence(frame[..k], TERMINATOR);
    if end.Some? {
      TerminatorFits(frame[..k]);
      FindIsLocal(frame[..k], frame[k..], TERMINATOR, end.value);
      SplitAt(frame, k);
      FirstTerminatorIsTheHeaders(|body|, body);
      HeaderIsShort(|body|);
    }
  }

  /**
   Messages encoded back to back, possibly followed by the beginning of one more frame, and
   delivered in any chunks: exactly those messages, no error, and only the beginning is left.
   */
  lemma StreamRoundTrip<M(!new)>(f: Framing<M>, maxFrameSize: Usize, messages: seq<M>, body: Bytes, k: nat,
                                 chunks: seq<Bytes>)
    requires IsDap(f, maxFrameSize) && ParseUndoesSer(f) && Encodable(f, maxFrameSize, messages)
    requires |body| <= maxFrameSize && k < |FrameOf(body)|
    requires Flatten(chunks) == EncodeAll(f, messages) + FrameOf(body)[..k]
    ensures Deliver(f, chunks) == Reading(messages, FrameOf(body)[..k], None)
  {
    DrainPartial(f, maxFrameSize, body, k);
    DrainEncoded(f, maxFrameSize, messages, FrameOf(body)[..k]);
    ChunkingIndependence(f, chunks);
  }

  /** At every moment before the end, a reader of encoder output has a prefix of the messages and no error. */
  lemma EncodedStreamNeverFails<M(!new)>(f: Framing<M>, maxFrameSize: Usize, messages: seq<M>, chunks: seq<Bytes>)
    requires IsDap(f, maxFrameSize) && ParseUndoesSer(f) && Encodable(f, maxFrameSize, messages)
    requires Flatten(chunks) <= EncodeAll(f, messages)
    ensures Deliver(f, chunks).failure == None
    ensures Deliver(f, chunks).messages <= messages
    ensures Flatten(chunks) == EncodeAll(f, messages) ==> Deliver(f, chunks) == Reading(messages, [], None)
  {
    var i, body, k := PrefixShape(f, maxFrameSize, messages, |Flatten(chunks)|);
    StreamRoundTrip(f, maxFrameSize, messages[..i], body, k, chunks);
  }

  /** A prefix of encoder output is some whole frames and a strict prefix of the next. */
  lemma {:induction false} PrefixShape<M>(f: Framing<M>, maxFrameSize: Usize, messages: seq<M>, length: nat)
    returns (i: nat, body: Bytes, k: nat)
    requires Encodable(f, maxFrameSize, messages) && length <= |EncodeAll(f, messages)|
    ensures i <= |messages| && |body| <= maxFrameSize && k < |FrameOf(body)|
    ensures EncodeAll(f, messages)[..length] == EncodeAll(f, messages[..i]) + FrameOf(body)[..k]
    ensures length == |EncodeAll(f, messages)| ==> i == |messages| && k == 0
  {
    if messages == [] {
      i, body, k := 0, [], 0;
    } else {
      var first := f.ser(messages[0]).value;
      var frame := FrameOf(first);
      if length < |frame| {
        i, body, k := 0, first, length;
        assert messages[..0] == [];
      } else {
        i, body, k := PrefixShape(f, maxFrameSize, messages[1..], length - |frame|);
        i := i + 1;
        assert messages[..i][1..] == messages[1..][..i - 1];
        assert EncodeAll(f, messages)[..length] == frame + EncodeAll(f, messages[1..])[..length - |frame|];
      }
    }
  }

  // ----- buffer bound

  /** Larger frames are refused by the header check; the DAP header reader has this limit. */
  ghost predicate Limited<M>(f: Framing<M>, maxFrameSize: Usize) {
    forall h: Bytes :: f.header(h).Ok? ==> f.header(h).value <= maxFrameSize
  }

  lemma DapIsLimited<M>(f: Framing<M>, maxFrameSize: Usize)
    requires IsDap(f, maxFrameSize)
    ensures Limited(f, maxFrameSize)
  {
  }

  /** The buffer the drain loop looks at after it has taken out `k` messages. */
  function AfterMessages<M>(f: Framing<M>, buf: Bytes, k: nat): Bytes {
    if k == 0 then buf
    else match DecodeFrame(f, buf)
      case Message(_, n) => MessageConsumes(f, buf); AfterMessages(f, buf[n..], k - 1)
      case _ => buf
  }

  /** The frame end computed from this buffer (if any) is at most `limit`. */
  predicate FrameEndsBelow<M>(f: Framing<M>, buf: Bytes, limit: nat) {
    match FindSubsequence(buf, TERMINATOR)
    case None => true
    case Some(end) =>
      assert OccursAt(buf, TERMINATOR, end);
      var length := f.header(buf[..end]);
      length.Ok? ==> end + 4 + length.value <= limit
  }

  lemma {:induction false} AfterMessagesShrinks<M>(f: Framing<M>, buf: Bytes, k: nat)
    ensures |AfterMessages(f, buf, k)| <= |buf|
    decreases k
  {
    if k > 0 && DecodeFrame(f, buf).Message? {
      MessageConsumes(f, buf);
      AfterMessagesShrinks(f, buf[DecodeFrame(f, buf).consumed..], k - 1);
    }
  }

  lemma {:induction false} DrainStopsWaiting<M>(f: Framing<M>, buf: Bytes)
    ensures Drain(f, buf).failure.None? ==> DecodeFrame(f, Drain(f, buf).rest) == NeedMore
    ensures |Drain(f, buf).rest| <= |buf|
    decreases |buf|
  {
    if DecodeFrame(f, buf).Message? {
      MessageConsumes(f, buf);
      DrainStopsWaiting(f, buf[DecodeFrame(f, buf).consumed..]);
    }
  }

  /** While waiting, the terminator (if it has come) lies near the start of the buffer. */
  ghost predicate WaitsWithin<M>(f: Framing<M>, buf: Bytes, chunkLimit: nat) {
    && DecodeFrame(f, buf) == NeedMore
    && (FindSubsequence(buf, TERMINATOR).Some? ==>
          FindSubsequence(buf, TERMINATOR).value + 4 <= MAX_HEADER + chunkLimit)
  }

  /** A message completed by a chunk ends inside that chunk. */
  lemma MessageEndsInNewChunk<M>(f: Framing<M>, buf: Bytes, chunk: Bytes)
    requires DecodeFrame(f, buf) == NeedMore && DecodeFrame(f, buf + chunk).Message?
    ensures |buf| < DecodeFrame(f, buf + chunk).consumed <= |buf + chunk|
  {
    MessageConsumes(f, buf + chunk);
    if DecodeFrame(f, buf + chunk).consumed <= |buf| {
      DecodeFromPrefix(f, buf, chunk);
    }
  }

  lemma TerminatorStaysNear<M>(f: Framing<M>, buf: Bytes, chunk: Bytes, chunkLimit: nat)
    requires WaitsWithin(f, buf, chunkLimit) && |chunk| <= chunkLimit
    ensures FindSubsequence(buf + chunk, TERMINATOR).Some? ==>
              FindSubsequence(buf + chunk, TERMINATOR).value + 4 <= MAX_HEADER + chunkLimit
  {
    var end := FindSubsequence(buf + chunk, TERMINATOR);
    if end.Some? {
      assert OccursAt(buf + chunk, TERMINATOR, end.value);
      var early := FindSubsequence(buf, TERMINATOR);
      if early.Some? {
        assert OccursAt(buf, TERMINATOR, early.value);
        FindIsLocal(buf, chunk, TERMINATOR, early.value);
      }
    }
  }

  /** Later buffers of one drain lie inside the chunk that completed the first message. */
  lemma LaterBuffersAreShort<M>(f: Framing<M>, buf: Bytes, chunk: Bytes, k: nat)
    requires DecodeFrame(f, buf) == NeedMore
    ensures AfterMessages(f, buf + chunk, k) == buf + chunk || |AfterMessages(f, buf + chunk, k)| <= |chunk|
  {
    var all := buf + chunk;
    match DecodeFrame(f, all)
    case Message(_, n) =>
      if k > 0 {
        MessageEndsInNewChunk(f, buf, chunk);
        AfterMessagesShrinks(f, all[n..], k - 1);
      }
    case _ =>
  }

  lemma NextChunkStaysBounded<M>(f: Framing<M>, maxFrameSize: Usize, buf: Bytes, chunk: Bytes, chunkLimit: nat, k: nat)
    requires Limited(f, maxFrameSize) && WaitsWithin(f, buf, chunkLimit) && |chunk| <= chunkLimit
    ensures FrameEndsBelow(f, AfterMessages(f, buf + chunk, k), MAX_HEADER + chunkLimit + maxFrameSize)
  {
    TerminatorStaysNear(f, buf, chunk, chunkLimit);
    LaterBuffersAreShort(f, buf, chunk, k);
    TerminatorFits(AfterMessages(f, buf + chunk, k));
  }

  lemma NextChunkStaysNear<M>(f: Framing<M>, buf: Bytes, chunk: Bytes, chunkLimit: nat)
    requires WaitsWithin(f, buf, chunkLimit) && |chunk| <= chunkLimit
    requires Drain(f, buf + chunk).failure.None?
    ensures WaitsWithin(f, Drain(f, buf + chunk).rest, chunkLimit)
  {
    var all := buf + chunk;
    TerminatorStaysNear(f, buf, chunk, chunkLimit);
    DrainStopsWaiting(f, all);
    match DecodeFrame(f, all)
    case NeedMore =>
    case Failed(_) =>
    case Message(_, n) =>
      MessageEndsInNewChunk(f, buf, chunk);
      DrainStopsWaiting(f, all[n..]);
      TerminatorFits(Drain(f, all[n..]).rest);
  }

  lemma TerminatorFits(buf: Bytes)
    ensures FindSubsequence(buf, TERMINATOR).Some? ==> FindSubsequence(buf, TERMINATOR).value + 4 <= |buf|
  {
  }

  /**
   With chunks of at most `chunkLimit` bytes, a waiting reader holds at most
   4096 + chunkLimit + maxFrameSize bytes, and no frame end computed while decoding the next
   chunk lies beyond that sum.
   */
  lemma {:induction false} BufferBound<M>(f: Framing<M>, maxFrameSize: Usize, chunks: seq<Bytes>, chunkLimit: nat)
    requires Limited(f, maxFrameSize)
    requires forall i :: 0 <= i < |chunks| ==> |chunks[i]| <= chunkLimit
    ensures var r := Deliver(f, chunks);
            r.failure.None? ==>
              && |r.rest| <= MAX_HEADER + chunkLimit + maxFrameSize
              && WaitsWithin(f, r.rest, chunkLimit)
              && forall next: Bytes, k: nat :: |next| <= chunkLimit ==>
                   FrameEndsBelow(f, AfterMessages(f, r.rest + next, k), MAX_HEADER + chunkLimit + maxFrameSize)
  {
    var r := Deliver(f, chunks);
    if r.failure.None? {
      if chunks == [] {
        assert FindSubsequence([], TERMINATOR).None?;
      } else {
        var init := chunks[..|chunks| - 1];
        BufferBound(f, maxFrameSize, init, chunkLimit);
        NextChunkStaysNear(f, Deliver(f, init).rest, chunks[|chunks| - 1], chunkLimit);
      }
      WaitingBufferIsSmall(f, maxFrameSize, r.rest, chunkLimit);
      forall next: Bytes, k: nat | |next| <= chunkLimit
        ensures FrameEndsBelow(f, AfterMessages(f, r.rest + next, k), MAX_HEADER + chunkLimit + maxFrameSize)
      {
        NextChunkStaysBounded(f, maxFrameSize, r.rest, next, chunkLimit, k);
      }
    }
  }

  /** The DAP decoder in particular: the bound follows from its frame limit alone. */
  lemma DapBufferBound<M>(f: Framing<M>, maxFrameSize: Usize, chunks: seq<Bytes>, chunkLimit: nat)
    requires IsDap(f, maxFrameSize)
    requires forall i :: 0 <= i < |chunks| ==> |chunks[i]| <= chunkLimit
    ensures Deliver(f, chunks).failure.None? ==>
              |Deliver(f, chunks).rest| <= MAX_HEADER + chunkLimit + maxFrameSize
  {
    DapIsLimited(f, maxFrameSize);
    BufferBound(f, maxFrameSize, chunks, chunkLimit);
  }

  lemma WaitingBufferIsSmall<M>(f: Framing<M>, maxFrameSize: Usize, buf: Bytes, chunkLimit: nat)
    requires Limited(f, maxFrameSize) && WaitsWithin(f, buf, chunkLimit)
    ensures |buf| <= MAX_HEADER + chunkLimit + maxFrameSize
  {
  }

  // ----- the imperative reader

  lemma ContinueStep<M>(f: Framing<M>, r: Reading<M>)
    requires r.failure.None?
    ensures match DecodeFrame(f, r.rest)
      case NeedMore => Continue(f, r) == r
      case Failed(e) => Continue(f, r) == r.(failure := Some(e))
      case Message(m, n) => n <= |r.rest| && Continue(f, r) == Continue(f, Reading(r.messages + [m], r.rest[n..], None))
  {
  }

  /** The stdout reader's loop: append what arrived, then decode until the codec waits or fails. */
  class FrameReader<M> {
    const codec: DapCodec<M>
    const buffer: BytesMut
    var messages: seq<M>
    var failure: Option<DecodeError>

    ghost predicate Valid() reads this, buffer { codec.Valid() && buffer.Valid() }

    ghost function View(): Reading<M> reads this, buffer { Reading(messages, buffer.data, failure) }

    constructor (codec: DapCodec<M>)
      requires codec.Valid()
      ensures Valid() && fresh(buffer) && this.codec == codec
      ensures View() == Deliver(codec.f, [])
    {
      this.codec := codec;
      buffer := new BytesMut();
      messages, failure := [], None;
    }

    method Receive(chunk: Bytes)
      requires Valid()
      modifies this, buffer
      ensures Valid()
      ensures View() == Feed(codec.f, old(View()), chunk)
    {
      if failure.Some? {
        return;
      }
      buffer.ExtendFromSlice(chunk);
      ghost var target := Continue(codec.f, View());
      var going := true;
      while going
        invariant Valid()
        invariant if going then failure.None? && Continue(codec.f, View()) == target else View() == target
        decreases going, |buffer.data|
      {
        MessageConsumes(codec.f, buffer.data);
        ContinueStep(codec.f, View());
        var item := codec.Decode(buffer);
        match item
        case Err(e) =>
          failure, going := Some(e), false;
        case Ok(None) =>
          going := false;
        case Ok(Some(m)) =>
          messages := messages + [m];
      }
    }
  }
}
