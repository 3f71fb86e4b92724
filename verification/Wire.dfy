/** Correlation and framing together: what a peer reads from the client's stdin bytes. */
module Wire {
  import opened Prelude
  import opened ByteText
  import opened Framing
  import opened FrameStream
  import opened Protocol
  import opened Correlation

  ghost predicate EncodesWith(enc: Encoder, f: Framing<ProtocolMessage>) {
    forall m :: enc(m) == EncodeFrame(f, m)
  }

  lemma {:induction false} FramesAreEncoded(enc: Encoder, f: Framing<ProtocolMessage>, messages: seq<ProtocolMessage>)
    requires EncodesWith(enc, f)
    requires forall k :: 0 <= k < |messages| ==> enc(messages[k]).Some?
    ensures forall k :: 0 <= k < |messages| ==> f.ser(messages[k]).Some?
    ensures Frames(enc, messages) == EncodeAll(f, messages)
  {
    forall k | 0 <= k < |messages|
      ensures f.ser(messages[k]).Some?
    {
      assert enc(messages[k]) == EncodeFrame(f, messages[k]);
    }
    if messages != [] {
      FramesAreEncoded(enc, f, messages[1..]);
    }
  }

  /** This message's body, if it serialises, fits the peer's frame limit. */
  predicate Fits(f: Framing<ProtocolMessage>, peerLimit: Usize, m: ProtocolMessage) {
    f.ser(m).Some? ==> |f.ser(m).value| <= peerLimit
  }

  /** The requests sent on the current stdin fit the peer's limit, and so does the one being written. */
  ghost predicate FitsPeer(f: Framing<ProtocolMessage>, peerLimit: Usize, s: Client) {
    && (s.stdin.Some? ==> forall k :: 0 <= k < |s.stdin.value.sent| ==> Fits(f, peerLimit, s.stdin.value.sent[k]))
    && (s.lock.Some? && s.lock.value < |s.calls| ==> Fits(f, peerLimit, s.calls[s.lock.value].message))
  }

  /** The partial frame on the wire is a strict prefix of some frame within the limit. */
  lemma PartialFrameShape(enc: Encoder, f: Framing<ProtocolMessage>, peerLimit: Usize, s: Client)
    returns (body: Bytes, k: nat)
    requires EncodesWith(enc, f) && FitsPeer(f, peerLimit, s) && LockExact(enc, s)
    ensures |body| <= peerLimit && k < |FrameOf(body)|
    ensures PartialFrame(enc, s) == FrameOf(body)[..k]
  {
    body, k := [], 0;
    if s.lock.Some? {
      var call := s.calls[s.lock.value];
      assert enc(call.message) == EncodeFrame(f, call.message);
      if call.phase.done < |FrameOfCall(enc, call)| {
        body, k := f.ser(call.message).value, call.phase.done;
      }
    }
  }

  /**
   In every run in which no write on the current stdin broke off inside a frame: the bytes
   written so far, however the pipe cuts them, are read by a peer running the decoder as
   exactly the completed requests in write order, with the beginning of the frame being
   written left over; their sequence numbers are pairwise distinct.
   */
  lemma PeerReadsRequestsInWriteOrder(enc: Encoder, f: Framing<ProtocolMessage>, peerLimit: Usize,
                                      actions: seq<Action>, s: Client, pipe: Pipe,
                                      chunks: seq<Bytes>, r: Reading<ProtocolMessage>)
    requires EncodesWith(enc, f) && IsDap(f, peerLimit) && ParseUndoesSer(f)
    requires Run(enc, actions) == Some(s) && s.stdin == Some(pipe) && !pipe.broken && FitsPeer(f, peerLimit, s)
    requires Flatten(chunks) == pipe.bytes && r == Deliver(f, chunks)
    ensures r.messages == pipe.sent && r.rest == PartialFrame(enc, s) && r.failure == None
    ensures forall j, k :: 0 <= j < k < |pipe.sent| ==> pipe.sent[j].seqNo != pipe.sent[k].seqNo
  {
    InvHolds(enc, actions);
    var sent := pipe.sent;
    FramesAreEncoded(enc, f, sent);
    assert forall k :: 0 <= k < |sent| ==> Fits(f, peerLimit, sent[k]);
    var body, k := PartialFrameShape(enc, f, peerLimit, s);
    StreamRoundTrip(f, peerLimit, sent, body, k, chunks);
  }
}
